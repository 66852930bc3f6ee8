/** Every step of a connection keeps its invariant. */
module ConnectionSteps {
  import opened Wrappers
  import F = FlowControlModel
  import W = WriteQueueModel
  import opened NativeConnectionModel
  import opened ConnectionInvariant

  const NONE: multiset<int> := multiset{}

  // ----- Settling, taking and releasing -----

  /** An outcome that may be given to this call now. */
  predicate Truthful(c: Connection, call: nat, o: Outcome) {
    && (NeverSent(o) && call in c.idOf ==> c.idOf[call] !in Ids(c.writes.queue) && c.idOf[call] !in Ids(c.writes.handed))
    && (MaybeSent(o) ==> call in c.idOf && c.idOf[call] in Ids(c.writes.handed))
  }

  lemma Facts(c: Connection, cfg: Config, hand: multiset<int>, lost: set<nat>, busy: set<nat>)
    requires Between(c, cfg, hand, lost, busy)
    ensures Steady(c) && F.Matches(c.flow) && WaitersParked(c.flow, c.parked)
  {
  }

  /** A busy call that is settled needs no owner any more. */
  lemma {:induction false} SettleCalls(c: Connection, busy: set<nat>, call: nat, o: Outcome)
    requires CallsOk(c, busy) && call in busy
    ensures CallsOk(Settle(c, call, o), busy - {call})
  {
    hide HasOwner, IdsOk;
    var d := Settle(c, call, o);
    assert d.outcomes.Keys == c.outcomes.Keys + {call} && d == c.(outcomes := d.outcomes);
    hide Settle;
    SettledOwners(c, d, busy, call);
    hide OwnersOk;
    assert forall id | id in c.pending :: c.pending[id].call != call;
    assert forall w | w in c.parked :: c.parked[w].call != call;
  }

  lemma SettledOwners(c: Connection, d: Connection, busy: set<nat>, call: nat)
    requires OwnersOk(c, busy) && call in busy && d == c.(outcomes := d.outcomes) && d.outcomes.Keys == c.outcomes.Keys + {call}
    ensures OwnersOk(d, busy - {call})
  {
    hide HasOwner;
  }

  lemma SettleLabels(c: Connection, call: nat, o: Outcome)
    requires LabelsOk(c.outcomes, c.idOf, Ids(c.writes.queue), Ids(c.writes.handed)) && (call in c.outcomes || Truthful(c, call, o))
    ensures LabelsOk(Settle(c, call, o).outcomes, c.idOf, Ids(c.writes.queue), Ids(c.writes.handed))
  {
    hide Ids;
  }

  lemma {:induction false} SettleKeeps(c: Connection, cfg: Config, hand: multiset<int>, lost: set<nat>, busy: set<nat>, call: nat, o: Outcome)
    requires Between(c, cfg, hand, lost, busy) && call in busy
    requires call in c.outcomes || Truthful(c, call, o)
    ensures Between(Settle(c, call, o), cfg, hand, lost, busy - {call})
  {
    hide F.Valid, F.AtRest, CreditsOk, WaitersParked, QueueOk, CallsOk, LabelsOk, PlacesOk, Truthful;
    SettleCalls(c, busy, call, o);
    SettleLabels(c, call, o);
  }

  lemma {:induction false} FinishKeeps(c: Connection, cfg: Config, hand: multiset<int>, lost: set<nat>, busy: set<nat>)
    requires Between(c, cfg, hand, lost, busy)
    ensures Between(FinishDrainIfIdle(c), cfg, hand, lost, busy) && DrainOk(FinishDrainIfIdle(c))
  {
    CloseConserves(c.flow, hand, c.pending, c.parked);
    var d := FinishDrainIfIdle(c);
    assert OwnersOk(d, busy);
  }

  /** The credit or the control slot of a request that has left the table comes back. */
  lemma {:induction false} ReleaseForKeeps(c: Connection, cfg: Config, hand: multiset<int>, id: nat)
    requires Steady(c) && WaitersParked(c.flow, c.parked) && id in c.pending
    requires CreditsOk(c.flow.active, hand, c.pending, c.parked, c.flow.outcomes) && c.controls == |Controls(c.pending)|
    ensures var p, rest := c.pending[id], c.pending - {id};
            var d := ReleaseFor(c, p);
            && Steady(d) && WaitersParked(d.flow, c.parked) && d == c.(flow := d.flow, controls := d.controls)
            && CreditsOk(d.flow.active, hand, rest, c.parked, d.flow.outcomes)
            && d.controls == |Controls(rest)| <= c.controls && d.flow.closed == c.flow.closed
  {
    var p := c.pending[id];
    if p.hasCredit {
      RemoveHolder(c.flow.active, hand, c.pending, c.parked, c.flow.outcomes, id);
      ReleaseConserves(c.flow, p.lane, hand, c.pending - {id}, c.parked);
    } else {
      RemoveControl(c.flow.active, hand, c.pending, c.parked, c.flow.outcomes, id);
    }
  }

  lemma {:induction false} CancelKeeps(w: W.Writes, socket: W.Socket, maxBytes: nat, id: nat)
    requires QueueOk(w, maxBytes)
    ensures QueueOk(W.Cancel(w, id), maxBytes) && Ids(W.Cancel(w, id).queue) == Ids(w.queue) - {id}
  {
    W.OperationKeepsValid(w, socket, maxBytes, W.CancelOp(id));
    IdsCancel(w.queue, id);
  }

  /** Without the request, its call has no owner: it is busy until it is settled. */
  lemma {:induction false} CallsWithout(c: Connection, busy: set<nat>, id: nat)
    requires CallsOk(c, busy) && id in c.pending
    ensures CallsOk(c.(pending := c.pending - {id}), busy + {c.pending[id].call})
  {
    var d, after := c.(pending := c.pending - {id}), busy + {c.pending[id].call};
    assert PendingOk(d.pending, d.idOf, d.outcomes, after);
    assert ParkedOk(d.parked, d.calls, d.idOf, d.outcomes, after);
    forall call: nat | call < d.calls && call !in d.outcomes && call !in after
      ensures HasOwner(call, d.idOf, d.pending, d.parked)
    {
      assert HasOwner(call, c.idOf, c.pending, c.parked);
    }
  }

  lemma {:induction false} CallsDependOn(c: Connection, d: Connection, busy: set<nat>)
    requires CallsOk(c, busy)
    requires d.calls == c.calls && d.idOf == c.idOf && d.nextId == c.nextId && d.pending == c.pending
    requires d.outcomes == c.outcomes && d.parked == c.parked
    ensures CallsOk(d, busy)
  {
    forall call: nat | call < d.calls && call !in d.outcomes && call !in busy
      ensures HasOwner(call, d.idOf, d.pending, d.parked)
    {
      assert HasOwner(call, c.idOf, c.pending, c.parked);
    }
  }

  lemma {:induction false} TakePendingKeeps(c: Connection, cfg: Config, socket: W.Socket, hand: multiset<int>, lost: set<nat>, busy: set<nat>, id: nat)
    requires Between(c, cfg, hand, lost, busy) && id in c.pending
    ensures Between(TakePending(c, id), cfg, hand, lost - {id}, busy + {c.pending[id].call})
    ensures DrainOk(TakePending(c, id))
    ensures TakePending(c, id).idOf == c.idOf && TakePending(c, id).outcomes == c.outcomes
    ensures TakePending(c, id).writes == W.Cancel(c.writes, id)
  {
    hide F.Valid, F.AtRest, CreditsOk, IdsOk, PendingOk, ParkedOk, OwnersOk, WaitersParked, QueueOk;
    var p := c.pending[id];
    var d := c.(pending := c.pending - {id}, writes := W.Cancel(c.writes, id));
    var e := ReleaseFor(d, p);
    ReleaseForKeeps(c, cfg, hand, id);
    assert e == d.(flow := ReleaseFor(c, p).flow, controls := ReleaseFor(c, p).controls);
    CancelKeeps(c.writes, socket, cfg.maxQueuedWriteBytes, id);
    CallsWithout(c, busy, id);
    CallsDependOn(c.(pending := c.pending - {id}), e, busy + {p.call});
    FinishKeeps(e, cfg, hand, lost - {id}, busy + {p.call});
  }

  /** An outcome that may be given to the request `id` once it is out of the table. */
  predicate TruthfulFor(c: Connection, id: nat, o: Outcome)
    requires id in c.pending
  {
    && (NeverSent(o) && !c.pending[id].timedOut ==> id !in Ids(c.writes.handed))
    && (MaybeSent(o) && !c.pending[id].timedOut ==> id in Ids(c.writes.handed))
  }

  lemma {:induction false} TakeKeeps(c: Connection, cfg: Config, socket: W.Socket, hand: multiset<int>, lost: set<nat>, busy: set<nat>, id: nat, o: Outcome)
    requires Between(c, cfg, hand, lost, busy) && id in c.pending && TruthfulFor(c, id, o)
    ensures Between(Take(c, id, o), cfg, hand, lost - {id}, busy) && DrainOk(Take(c, id, o))
  {
    hide F.Valid, F.AtRest, CreditsOk, ParkedOk, OwnersOk, WaitersParked, QueueOk, LabelsOk, PlacesOk;
    var call := c.pending[id].call;
    TakePendingKeeps(c, cfg, socket, hand, lost, busy, id);
    var d := TakePending(c, id);
    CancelKeeps(c.writes, socket, cfg.maxQueuedWriteBytes, id);
    assert call in d.outcomes || Truthful(d, call, o);
    SettleKeeps(d, cfg, hand, lost - {id}, busy + {call}, call, o);
    assert busy + {call} - {call} == busy;
  }

  lemma {:induction false} TakeKeepsInv(c: Connection, cfg: Config, socket: W.Socket, id: nat, o: Outcome)
    requires Inv(c, cfg) && id in c.pending && TruthfulFor(c, id, o)
    ensures Inv(Take(c, id, o), cfg)
  {
    Facts(c, cfg, NONE, {}, {});
    hide Between, Take;
    TakeKeeps(c, cfg, socket, NONE, {}, {}, id, o);
    assert {} - {id} == {};
  }

  lemma InvFacts(c: Connection, cfg: Config)
    requires Inv(c, cfg)
    ensures Steady(c) && WaitersParked(c.flow, c.parked)
  {
  }

  lemma {:induction false} TakeEachKeeps(c: Connection, cfg: Config, socket: W.Socket, lost: set<nat>, rejections: seq<W.Rejection>)
    requires Between(c, cfg, NONE, lost, {}) && Rejects(rejections, lost)
    ensures Between(TakeEach(c, rejections), cfg, NONE, {}, {})
    ensures DrainOk(c) ==> DrainOk(TakeEach(c, rejections))
    decreases |rejections|
  {
    if rejections != [] {
      RejectsTail(rejections, lost);
      var id, o := rejections[0].requestId, OutcomeOf(rejections[0].reason);
      TakeKeeps(c, cfg, socket, NONE, lost, {}, id, o);
      TakeEachKeeps(Take(c, id, o), cfg, socket, lost - {id}, rejections[1..]);
    }
  }

  // ----- Requests -----

  lemma {:induction false} NewCall(c: Connection, cfg: Config)
    requires Between(c, cfg, NONE, {}, {})
    ensures Between(c.(calls := c.calls + 1), cfg, NONE, {}, {c.calls})
    ensures c.calls !in c.outcomes && c.calls !in c.idOf
  {
    hide F.Valid, F.AtRest, CreditsOk, LabelsOk, QueueOk, PlacesOk, WaitersParked, CallsOk;
    NewCallOwners(c);
  }

  lemma {:induction false} NewCallOwners(c: Connection)
    requires CallsOk(c, {})
    ensures CallsOk(c.(calls := c.calls + 1), {c.calls}) && c.calls !in c.outcomes && c.calls !in c.idOf
  {
    hide HasOwner;
    var d := c.(calls := c.calls + 1);
    assert c.calls !in c.outcomes && c.calls !in c.idOf;
    assert ParkedOk(d.parked, d.calls, d.idOf, d.outcomes, {c.calls});
    assert OwnersOk(d, {c.calls});
  }

  lemma {:induction false} AssignCalls(c: Connection, call: nat)
    requires CallsOk(c, {call}) && call !in c.idOf
    ensures CallsOk(c.(nextId := c.nextId + 1, idOf := c.idOf[call := c.nextId]), {call})
  {
    var d := c.(nextId := c.nextId + 1, idOf := c.idOf[call := c.nextId]);
    assert IdsOk(d.calls, d.idOf, d.nextId);
    assert PendingOk(d.pending, d.idOf, d.outcomes, {call});
    assert ParkedOk(d.parked, d.calls, d.idOf, d.outcomes, {call});
    forall x: nat | x < d.calls && x !in d.outcomes && x !in {call}
      ensures HasOwner(x, d.idOf, d.pending, d.parked)
    {
      assert HasOwner(x, c.idOf, c.pending, c.parked);
    }
  }

  lemma AssignLabels(outcomes: map<nat, Outcome>, idOf: map<nat, nat>, queued: set<nat>, sent: set<nat>, call: nat, id: nat)
    requires LabelsOk(outcomes, idOf, queued, sent) && id !in queued && id !in sent && call !in idOf
    ensures LabelsOk(outcomes, idOf[call := id], queued, sent)
  {
  }

  /** Giving the busy call the next identifier. */
  lemma {:induction false} AssignId(c: Connection, cfg: Config, hand: multiset<int>, call: nat)
    requires Between(c, cfg, hand, {}, {call}) && call !in c.idOf
    ensures Between(c.(nextId := c.nextId + 1, idOf := c.idOf[call := c.nextId]), cfg, hand, {}, {call})
    ensures c.nextId !in c.pending && c.nextId !in Ids(c.writes.handed) && c.nextId !in Ids(c.writes.queue)
  {
    hide F.Valid, F.AtRest, CreditsOk, WaitersParked, QueueOk, CallsOk, LabelsOk;
    assert c.nextId !in Ids(c.writes.queue) && c.nextId !in Ids(c.writes.handed);
    AssignLabels(c.outcomes, c.idOf, Ids(c.writes.queue), Ids(c.writes.handed), call, c.nextId);
    AssignCalls(c, call);
  }

  lemma {:induction false} GiveBackKeeps(c: Connection, cfg: Config, busy: set<nat>, lane: int)
    requires Between(c, cfg, multiset{lane}, {}, busy)
    ensures Between(c.(flow := F.Release(c.flow, lane)), cfg, NONE, {}, busy)
  {
    assert c.flow.active[lane] >= 1;
    forall l
      ensures (c.flow.active - multiset{lane})[l] == NONE[l] + |Holders(c.pending, l)| + |GrantedOn(c.parked, c.flow.outcomes, l)|
    {
      assert c.flow.active[l] == multiset{lane}[l] + |Holders(c.pending, l)| + |GrantedOn(c.parked, c.flow.outcomes, l)|;
    }
    ReleaseConserves(c.flow, lane, NONE, c.pending, c.parked);
    F.ReleaseKeepsValid(c.flow, lane);
    CallsDependOn(c, c.(flow := F.Release(c.flow, lane)), busy);
  }

  lemma RegisterPlaces(queued: set<nat>, sent: set<nat>, pending: map<nat, Pending>, nextId: nat, id: nat, p: Pending)
    requires PlacesOk(queued, sent, pending, {}, nextId) && id < nextId && id !in pending && id !in sent && !p.timedOut
    ensures PlacesOk(queued, sent, pending[id := p], {id}, nextId)
  {
  }

  /** A request enters the table; its frame is nowhere yet. */
  lemma {:induction false} RegisterKeeps(c: Connection, cfg: Config, call: nat, id: nat, p: Pending)
    requires Between(c, cfg, if p.hasCredit then multiset{p.lane} else NONE, {}, {call})
    requires p.call == call && call !in c.outcomes && call in c.idOf && c.idOf[call] == id && !p.timedOut && !c.closed
    requires id < c.nextId && id !in c.pending && id !in Ids(c.writes.handed)
    requires !p.hasCredit ==> c.controls < cfg.maxControls
    ensures Between(Registered(c, id, p), cfg, NONE, {id}, {})
  {
    hide F.Valid, F.AtRest, WaitersParked, QueueOk, CallsOk, CreditsOk, PlacesOk, LabelsOk;
    var d := Registered(c, id, p);
    if p.hasCredit {
      AddHolder(c.flow.active, NONE, c.pending, c.parked, c.flow.outcomes, id, p);
    } else {
      AddControl(c.flow.active, c.pending, c.parked, c.flow.outcomes, id, p);
    }
    RegisterPlaces(Ids(c.writes.queue), Ids(c.writes.handed), c.pending, c.nextId, id, p);
    RegisterCalls(c, call, id, p);
    CallsDependOn(c.(pending := c.pending[id := p]), d, {});
  }

  lemma {:induction false} RegisterCalls(c: Connection, call: nat, id: nat, p: Pending)
    requires CallsOk(c, {call}) && p.call == call && call !in c.outcomes && call in c.idOf && c.idOf[call] == id
    requires !p.timedOut && id !in c.pending
    ensures CallsOk(c.(pending := c.pending[id := p]), {})
  {
    var d := c.(pending := c.pending[id := p]);
    assert PendingOk(d.pending, d.idOf, d.outcomes, {});
    assert ParkedOk(d.parked, d.calls, d.idOf, d.outcomes, {});
    forall x: nat | x < d.calls && x !in d.outcomes && x !in {}
      ensures HasOwner(x, d.idOf, d.pending, d.parked)
    {
      if x != call { assert HasOwner(x, c.idOf, c.pending, c.parked); }
    }
  }

  /** Whoever settles as unsent is not among the correlated requests. */
  lemma {:induction false} LabelsWithSent(c: Connection, outcomes: map<nat, Outcome>, busy: set<nat>, id: nat, queued: set<nat>, sent: set<nat>)
    requires PendingOk(c.pending, c.idOf, c.outcomes, busy) && IdsOk(c.calls, c.idOf, c.nextId)
    requires LabelsOk(c.outcomes, c.idOf, Ids(c.writes.queue), Ids(c.writes.handed))
    requires id in c.pending && !c.pending[id].timedOut
    requires queued <= Ids(c.writes.queue) + {id} && Ids(c.writes.handed) <= sent <= Ids(c.writes.handed) + {id}
    ensures LabelsOk(c.outcomes, c.idOf, queued, sent)
  {
    assert c.idOf[c.pending[id].call] == id;
  }

  lemma {:induction false} SubmitKeeps(c: Connection, cfg: Config, socket: W.Socket, job: W.Job)
    requires Between(c, cfg, NONE, {job.requestId}, {}) && DrainOk(c) && !c.pending[job.requestId].timedOut
    ensures Inv(Submit(c, cfg, socket, job), cfg)
  {
    hide F.Valid, CreditsOk, W.BytesOf, W.IsSubsequence;
    var id := job.requestId;
    WriteMoves(c.writes, socket, job, cfg.maxQueuedWriteBytes);
    var (writes, rejected) := W.Write(c.writes, socket, job, cfg.maxQueuedWriteBytes);
    var d := c.(writes := writes);
    LabelsWithSent(c, c.outcomes, {}, id, Ids(writes.queue), Ids(writes.handed));
    CallsDependOn(c, d, {});
    TakeEachKeeps(d, cfg, socket, RejectedIds(rejected), rejected);
  }

  /** A busy call without an identifier may be refused. */
  lemma {:induction false} RefuseKeeps(c: Connection, cfg: Config, busy: set<nat>, call: nat, o: Outcome)
    requires Between(c, cfg, NONE, {}, busy + {call}) && call !in busy && call !in c.idOf && !MaybeSent(o)
    ensures Between(Settle(c, call, o), cfg, NONE, {}, busy)
  {
    hide Between;
    SettleKeeps(c, cfg, NONE, {}, busy + {call}, call, o);
    assert busy + {call} - {call} == busy;
  }

  /** The request in hand, with its credit unless it is a control request. */
  lemma {:induction false} SendAcquiredKeeps(c: Connection, cfg: Config, socket: W.Socket, call: nat, cmd: Command, hasCredit: bool)
    requires Between(c, cfg, if hasCredit then multiset{cmd.lane} else NONE, {}, {call})
    requires call !in c.outcomes && call !in c.idOf && !c.closed && DrainOk(c)
    ensures Inv(SendAcquired(c, cfg, socket, call, cmd, hasCredit), cfg)
  {
    hide Between, SendNew;
    if !hasCredit && c.controls >= cfg.maxControls {
      assert {} + {call} == {call};
      RefuseKeeps(c, cfg, {}, call, ControlsFull);
    } else {
      SendNewKeeps(c, cfg, socket, call, cmd, hasCredit);
    }
  }

  lemma {:induction false} SendNewKeeps(c: Connection, cfg: Config, socket: W.Socket, call: nat, cmd: Command, hasCredit: bool)
    requires Between(c, cfg, if hasCredit then multiset{cmd.lane} else NONE, {}, {call})
    requires call !in c.outcomes && call !in c.idOf && !c.closed && DrainOk(c) && (hasCredit || c.controls < cfg.maxControls)
    ensures Steady(c) && Inv(SendNew(c, cfg, socket, call, cmd, hasCredit), cfg)
  {
    hide Between, Submit, Unencoded;
    var hand := if hasCredit then multiset{cmd.lane} else NONE;
    Facts(c, cfg, hand, {}, {call});
    var d := c.(nextId := c.nextId + 1, idOf := c.idOf[call := c.nextId]);
    AssignId(c, cfg, hand, call);
    if cmd.frame.None? {
      UnencodedKeeps(d, cfg, call, cmd.lane, hasCredit);
    } else {
      var p := Pending(call, cmd.lane, cmd.opcode, hasCredit, cmd.indefinite, false, 0, 0);
      RegisterKeeps(d, cfg, call, c.nextId, p);
      SubmitKeeps(Registered(d, c.nextId, p), cfg, socket, W.Job(c.nextId, cmd.frame.value));
    }
  }

  lemma {:induction false} UnencodedKeeps(c: Connection, cfg: Config, call: nat, lane: int, hasCredit: bool)
    requires Between(c, cfg, if hasCredit then multiset{lane} else NONE, {}, {call}) && DrainOk(c) && Truthful(c, call, NotEncoded)
    ensures Steady(c) && Inv(Settle(Unencoded(c, lane, hasCredit), call, NotEncoded), cfg)
  {
    hide Between;
    Facts(c, cfg, if hasCredit then multiset{lane} else NONE, {}, {call});
    if hasCredit { GiveBackKeeps(c, cfg, {call}, lane); }
    SettleKeeps(Unencoded(c, lane, hasCredit), cfg, NONE, {}, {call}, call, NotEncoded);
    assert {call} - {call} == {};
  }

  lemma {:induction false} AcquireKeeps(c: Connection, cfg: Config, busy: set<nat>, lane: int)
    requires Between(c, cfg, NONE, {}, busy) && F.TryAcquire(c.flow, lane).1
    ensures Between(c.(flow := F.TryAcquire(c.flow, lane).0), cfg, multiset{lane}, {}, busy)
  {
    F.AcquireKeepsValid(c.flow, lane);
    var flow := F.TryAcquire(c.flow, lane).0;
    forall l
      ensures flow.active[l] == multiset{lane}[l] + |Holders(c.pending, l)| + |GrantedOn(c.parked, flow.outcomes, l)|
    {
      assert c.flow.active[l] == NONE[l] + |Holders(c.pending, l)| + |GrantedOn(c.parked, c.flow.outcomes, l)|;
    }
    CallsDependOn(c, c.(flow := flow), busy);
  }

  lemma {:induction false} WaitForCreditKeeps(c: Connection, cfg: Config, call: nat, cmd: Command)
    requires Between(c, cfg, NONE, {}, {call}) && !F.TryAcquire(c.flow, cmd.lane).1
    requires call !in c.outcomes && call !in c.idOf && DrainOk(c)
    ensures Inv(WaitForCredit(c, call, cmd), cfg)
  {
    hide CreditsOk, PendingOk, ParkedOk, OwnersOk, QueueOk, PlacesOk, LabelsOk;
    F.WaitKeepsValid(c.flow, cmd.lane, |WaitingSet(c.flow)|);
    var (flow, refused) := F.Wait(c.flow, cmd.lane, |WaitingSet(c.flow)|);
    if refused.Some? {
      SettleKeeps(c, cfg, NONE, {}, {call}, call, Refused(refused.value));
      assert {call} - {call} == {};
    } else {
      var w, p := c.flow.issued, Parked(call, cmd.lane, cmd.opcode, cmd.indefinite);
      ParkWaiter(c, w, p, cmd.lane);
      ParkCalls(c, w, p);
      CallsDependOn(c.(parked := c.parked[w := p]), WaitForCredit(c, call, cmd), {});
    }
  }

  lemma {:induction false} ParkWaiter(c: Connection, w: nat, p: Parked, lane: int)
    requires F.Valid(c.flow) && !c.flow.closed && WaitersParked(c.flow, c.parked) && w == c.flow.issued && p.lane == lane
    requires CreditsOk(c.flow.active, NONE, c.pending, c.parked, c.flow.outcomes)
    ensures WaitersParked(F.Enqueue(c.flow, lane), c.parked[w := p])
    ensures CreditsOk(c.flow.active, NONE, c.pending, c.parked[w := p], c.flow.outcomes)
  {
    var g := F.Enqueue(c.flow, lane);
    forall l, v: nat | F.Queued(g.queues, l, v)
      ensures v in c.parked[w := p] && c.parked[w := p][v].lane == l
    {
      assert F.Queued(c.flow.queues, l, v) || (l == lane && v == w);
    }
    forall l
      ensures GrantedOn(c.parked[w := p], c.flow.outcomes, l) == GrantedOn(c.parked, c.flow.outcomes, l)
    {
    }
  }

  lemma {:induction false} ParkCalls(c: Connection, w: nat, p: Parked)
    requires CallsOk(c, {p.call}) && w !in c.parked && p.call !in c.outcomes && p.call !in c.idOf
    ensures CallsOk(c.(parked := c.parked[w := p]), {})
  {
    var d := c.(parked := c.parked[w := p]);
    assert PendingOk(d.pending, d.idOf, d.outcomes, {});
    assert ParkedOk(d.parked, d.calls, d.idOf, d.outcomes, {});
    forall x: nat | x < d.calls && x !in d.outcomes && x !in {}
      ensures HasOwner(x, d.idOf, d.pending, d.parked)
    {
      if x == p.call {
        assert w in d.parked && d.parked[w].call == x;
      } else {
        OwnerStays(c, x, w, p);
      }
    }
  }

  lemma {:induction false} OwnerStays(c: Connection, x: nat, w: nat, p: Parked)
    requires HasOwner(x, c.idOf, c.pending, c.parked) && w !in c.parked
    ensures HasOwner(x, c.idOf, c.pending, c.parked[w := p])
  {
    if !(x in c.idOf && c.idOf[x] in c.pending) {
      var v :| v in c.parked && c.parked[v].call == x;
      assert v in c.parked[w := p] && c.parked[w := p][v].call == x;
    }
  }

  lemma {:induction false} RequestKeeps(c: Connection, cfg: Config, socket: W.Socket, cmd: Command, privileged: bool)
    requires Inv(c, cfg)
    ensures Inv(Request(c, cfg, socket, cmd, privileged), cfg)
  {
    hide Between, SendAcquired, WaitForCredit;
    var call := c.calls;
    var d := c.(calls := call + 1);
    Facts(c, cfg, NONE, {}, {});
    NewCall(c, cfg);
    assert {} + {call} == {call};
    if c.closed || (c.draining && !privileged) {
      RefuseKeeps(d, cfg, {}, call, Unsent);
    } else if IsControl(cmd.opcode) {
      SendAcquiredKeeps(d, cfg, socket, call, cmd, false);
    } else if F.TryAcquire(d.flow, cmd.lane).1 {
      AcquireKeeps(d, cfg, {call}, cmd.lane);
      SendAcquiredKeeps(d.(flow := F.TryAcquire(d.flow, cmd.lane).0), cfg, socket, call, cmd, true);
    } else {
      WaitForCreditKeeps(d, cfg, call, cmd);
    }
  }

  // ----- Resuming -----

  lemma {:induction false} UnparkKeeps(c: Connection, cfg: Config, w: nat)
    requires Inv(c, cfg) && w in c.parked && w in c.flow.outcomes
    ensures Between(c.(parked := c.parked - {w}), cfg,
                    if c.flow.outcomes[w] == F.Granted then multiset{c.parked[w].lane} else NONE, {}, {c.parked[w].call})
    ensures c.parked[w].call !in c.idOf && c.parked[w].call !in c.outcomes
  {
    hide F.Valid, F.AtRest, CreditsOk, QueueOk, CallsOk, LabelsOk, PlacesOk;
    UnparkConserves(c.flow.active, c.pending, c.parked, c.flow.outcomes, w);
    UnparkWaiters(c.flow, c.parked, w);
    hide WaitersParked;
    UnparkCalls(c, w);
  }

  /** A settled waiter is in no queue. */
  lemma UnparkWaiters(flow: F.Flow, parked: map<nat, Parked>, w: nat)
    requires F.Valid(flow) && WaitersParked(flow, parked) && w in flow.outcomes
    ensures WaitersParked(flow, parked - {w})
  {
  }

  /** Without its parking place, the call of a waiter is busy until it is settled or gets an identifier. */
  lemma {:induction false} UnparkCalls(c: Connection, w: nat)
    requires CallsOk(c, {}) && w in c.parked
    ensures CallsOk(c.(parked := c.parked - {w}), {c.parked[w].call})
    ensures c.parked[w].call !in c.idOf && c.parked[w].call !in c.outcomes
  {
    var d, call := c.(parked := c.parked - {w}), c.parked[w].call;
    assert PendingOk(d.pending, d.idOf, d.outcomes, {call});
    assert ParkedOk(d.parked, d.calls, d.idOf, d.outcomes, {call});
    forall x: nat | x < d.calls && x !in d.outcomes && x !in {call}
      ensures HasOwner(x, d.idOf, d.pending, d.parked)
    {
      OtherKeepsOwner(x, c.idOf, c.pending, c.parked, w);
    }
  }

  lemma {:induction false} OtherKeepsOwner(x: nat, idOf: map<nat, nat>, pending: map<nat, Pending>, parked: map<nat, Parked>, w: nat)
    requires HasOwner(x, idOf, pending, parked) && w in parked && parked[w].call != x
    ensures HasOwner(x, idOf, pending, parked - {w})
  {
    if !(x in idOf && idOf[x] in pending) {
      var v :| v in parked && parked[v].call == x;
      assert v in parked - {w};
    }
  }

  lemma {:induction false} ResumeKeeps(c: Connection, cfg: Config, socket: W.Socket, w: nat, expired: bool, frame: Option<W.Frame>)
    requires Inv(c, cfg)
    ensures Inv(Resume(c, cfg, socket, w, expired, frame), cfg)
  {
    hide Between, SendAcquired;
    Facts(c, cfg, NONE, {}, {});
    if w in c.parked && w in c.flow.outcomes {
      var p := c.parked[w];
      var d := c.(parked := c.parked - {w});
      UnparkKeeps(c, cfg, w);
      assert {} + {p.call} == {p.call};
      if c.flow.outcomes[w] != F.Granted {
        RefuseKeeps(d, cfg, {}, p.call, if c.flow.outcomes[w].TimedOut? then UnsentTimeout else Unsent);
      } else if c.closed || c.draining || (!p.indefinite && expired) {
        GiveBackKeeps(d, cfg, {p.call}, p.lane);
        RefuseKeeps(d.(flow := F.Release(d.flow, p.lane)), cfg, {}, p.call, if c.closed || c.draining then Unsent else UnsentTimeout);
      } else {
        SendAcquiredKeeps(d, cfg, socket, p.call, Command(p.lane, p.opcode, p.indefinite, frame), true);
      }
    }
  }

  lemma {:induction false} WaiterExpiresKeeps(c: Connection, cfg: Config, w: nat)
    requires Inv(c, cfg)
    ensures Inv(WaiterExpires(c, w), cfg)
  {
    hide CreditsOk, PlacesOk, LabelsOk, QueueOk, CallsOk, F.Valid, F.AtRest;
    if w in c.parked {
      WaiterIsOnItsLane(c, w);
      var lane := c.parked[w].lane;
      F.TimeOutKeepsValid(c.flow, lane, w);
      var flow := F.TimeOut(c.flow, lane, w);
      forall l, v: nat | F.Queued(flow.queues, l, v)
        ensures F.Queued(c.flow.queues, l, v)
      {
      }
      OthersConserve(c.flow.active, NONE, c.pending, c.parked, c.flow.outcomes, flow.outcomes);
      CallsDependOn(c, c.(flow := flow), {});
    }
  }

  // ----- Responses and time-outs -----

  /** Changing what is remembered of a late request. */
  lemma {:induction false} UpdateKeeps(c: Connection, cfg: Config, id: nat, p: Pending)
    requires Between(c, cfg, NONE, {}, {}) && id in c.pending
    requires p == c.pending[id].(timedOut := p.timedOut, discardedBytes := p.discardedBytes, discardedFrames := p.discardedFrames)
    requires p.timedOut ==> p.call in c.outcomes && p.hasCredit && !p.indefinite && id in Ids(c.writes.handed)
    requires c.pending[id].timedOut ==> p.timedOut
    requires !p.timedOut ==> p.call !in c.outcomes
    ensures Between(c.(pending := c.pending[id := p]), cfg, NONE, {}, {})
  {
    hide F.Valid, F.AtRest, CreditsOk, WaitersParked, QueueOk, CallsOk, LabelsOk, PlacesOk, Ids;
    PendingFacts(c, {}, id);
    UpdatePending(c.flow.active, NONE, c.pending, c.parked, c.flow.outcomes, id, p);
    UpdateCalls(c, id, p);
    LatePlaces(Ids(c.writes.queue), Ids(c.writes.handed), c.pending, c.nextId, id, p);
  }

  lemma {:induction false} UpdateCalls(c: Connection, id: nat, p: Pending)
    requires CallsOk(c, {}) && id in c.pending && p.call == c.pending[id].call && (p.timedOut <==> p.call in c.outcomes)
    ensures CallsOk(c.(pending := c.pending[id := p]), {})
  {
    var d := c.(pending := c.pending[id := p]);
    assert PendingOk(d.pending, d.idOf, d.outcomes, {});
    forall x: nat | x < d.calls && x !in d.outcomes && x !in {}
      ensures HasOwner(x, d.idOf, d.pending, d.parked)
    {
      assert HasOwner(x, c.idOf, c.pending, c.parked);
    }
  }

  lemma PendingFacts(c: Connection, busy: set<nat>, id: nat)
    requires CallsOk(c, busy) && id in c.pending
    ensures c.pending[id].call in c.idOf && c.idOf[c.pending[id].call] == id
    ensures c.pending[id].call in c.outcomes <==> c.pending[id].timedOut
  {
  }

  lemma {:induction false} LateCalls(c: Connection, id: nat, late: Pending)
    requires CallsOk(c, {}) && id in c.pending && late.call == c.pending[id].call && late.timedOut
    ensures CallsOk(c.(outcomes := c.outcomes[late.call := PossiblySentTimeout], pending := c.pending[id := late]), {})
  {
    var d := c.(outcomes := c.outcomes[late.call := PossiblySentTimeout], pending := c.pending[id := late]);
    assert PendingOk(d.pending, d.idOf, d.outcomes, {});
    forall x: nat | x < d.calls && x !in d.outcomes && x !in {}
      ensures HasOwner(x, d.idOf, d.pending, d.parked)
    {
      assert HasOwner(x, c.idOf, c.pending, c.parked);
    }
  }

  lemma LateLabels(outcomes: map<nat, Outcome>, idOf: map<nat, nat>, queued: set<nat>, sent: set<nat>, call: nat)
    requires LabelsOk(outcomes, idOf, queued, sent) && call in idOf && idOf[call] in sent
    ensures LabelsOk(outcomes[call := PossiblySentTimeout], idOf, queued, sent)
  {
  }

  lemma LatePlaces(queued: set<nat>, sent: set<nat>, pending: map<nat, Pending>, nextId: nat, id: nat, late: Pending)
    requires PlacesOk(queued, sent, pending, {}, nextId) && id in pending
    requires late.timedOut ==> id in sent && late.hasCredit && !late.indefinite
    ensures PlacesOk(queued, sent, pending[id := late], {}, nextId)
  {
  }

  /** Rejecting a request that stays in the table: it becomes a late one. */
  lemma {:induction false} LateKeeps(c: Connection, cfg: Config, id: nat, late: Pending)
    requires Between(c, cfg, NONE, {}, {}) && id in c.pending && !c.pending[id].timedOut
    requires late == c.pending[id].(timedOut := true, discardedBytes := late.discardedBytes, discardedFrames := late.discardedFrames)
    requires late.hasCredit && !late.indefinite && id in Ids(c.writes.handed)
    ensures Between(Settle(c.(pending := c.pending[id := late]), late.call, PossiblySentTimeout), cfg, NONE, {}, {})
  {
    hide F.Valid, F.AtRest, CreditsOk, WaitersParked, QueueOk, CallsOk, LabelsOk, PlacesOk, Ids;
    PendingFacts(c, {}, id);
    UpdatePending(c.flow.active, NONE, c.pending, c.parked, c.flow.outcomes, id, late);
    LateCalls(c, id, late);
    LateLabels(c.outcomes, c.idOf, Ids(c.writes.queue), Ids(c.writes.handed), late.call);
    LatePlaces(Ids(c.writes.queue), Ids(c.writes.handed), c.pending, c.nextId, id, late);
  }

  lemma {:induction false} RequestExpiresKeeps(c: Connection, cfg: Config, socket: W.Socket, id: nat, chunkBytes: nat, chunkFrames: nat)
    requires Inv(c, cfg)
    ensures Inv(RequestExpires(c, id, chunkBytes, chunkFrames), cfg)
  {
    hide F.Valid, LabelsOk;
    if id in c.pending && !c.pending[id].timedOut && !c.pending[id].indefinite {
      HoldsIsMembership(c.writes.queue, id);
      var p := c.pending[id];
      if !p.hasCredit || IsQueued(c, id) {
        TakeKeeps(c, cfg, socket, NONE, {}, {}, id, if IsQueued(c, id) then UnsentTimeout else PossiblySentTimeout);
        assert {} - {id} == {};
      } else {
        LateKeeps(c, cfg, id, p.(timedOut := true, discardedBytes := if chunkFrames > 0 then chunkBytes else 0,
                                 discardedFrames := chunkFrames));
      }
    }
  }

  lemma {:induction false} PumpedKeeps(c: Connection, cfg: Config, f: F.Flow)
    requires Between(c, cfg, NONE, {}, {}) && F.Valid(f) && WaitersParked(f, c.parked)
    requires f.active == c.flow.active && f.queues == c.flow.queues && f.outcomes == c.flow.outcomes
    requires f.issued == c.flow.issued && f.closed == c.flow.closed
    ensures Between(c.(flow := F.Pump(f)), cfg, NONE, {}, {})
  {
    F.PumpSettles(f);
    PumpConserves(f, NONE, c.pending, c.parked);
    var d := c.(flow := F.Pump(f));
    hide F.Valid, F.Matches, F.AtRest, F.Pump, CreditsOk, WaitersParked, CallsOk, QueueOk, PlacesOk, LabelsOk;
    CallsDependOn(c, d, {});
  }

  lemma {:induction false} LimitsKeep(c: Connection, cfg: Config, connection: Option<nat>, lane: Option<nat>, laneQueue: nat)
    requires Inv(c, cfg)
    ensures Inv(ApplyLimits(c, connection, lane), cfg) && Inv(ApplyLaneQueueLimit(c, laneQueue), cfg)
  {
    hide F.AtRest;
    Facts(c, cfg, NONE, {}, {});
    var f, g := F.WithLimits(c.flow, connection, lane), c.flow.(laneQueueLimit := laneQueue);
    assert F.Valid(f) && F.Valid(g) && WaitersParked(f, c.parked) && WaitersParked(g, c.parked);
    hide Between, F.Pump, F.Valid, WaitersParked;
    PumpedKeeps(c, cfg, f);
    PumpedKeeps(c, cfg, g);
  }

  lemma LimitsKeepTable(c: Connection, connection: Option<nat>, lane: Option<nat>)
    requires Steady(c)
    ensures ApplyLimits(c, connection, lane).pending == c.pending
  {
  }

  lemma {:induction false} CompleteKeeps(c: Connection, cfg: Config, socket: W.Socket, r: Response)
    requires Inv(c, cfg) && r.id in c.pending && r.assembled.Complete?
    ensures var ok, connection, lane := r.assembled.ok, r.assembled.connectionLimit, r.assembled.laneLimit;
            Steady(c) &&
            var d := if ok && c.pending[r.id].opcode == WINDOW_UPDATE then ApplyLimits(c, connection, lane) else c;
            Inv(Take(d, r.id, if ok then Resolved else ServerError), cfg)
  {
    hide Inv, Steady, WaitersParked, Take, ApplyLimits;
    var ok, connection, lane := r.assembled.ok, r.assembled.connectionLimit, r.assembled.laneLimit;
    InvFacts(c, cfg);
    LimitsKeepTable(c, connection, lane);
    LimitsKeep(c, cfg, connection, lane, 0);
    var d := if ok && c.pending[r.id].opcode == WINDOW_UPDATE then ApplyLimits(c, connection, lane) else c;
    InvFacts(d, cfg);
    TakeKeepsInv(d, cfg, socket, r.id, if ok then Resolved else ServerError);
  }

  lemma {:induction false} HandleFrameKeeps(c: Connection, cfg: Config, socket: W.Socket, r: Response)
    requires Inv(c, cfg)
    ensures Inv(HandleFrame(c, cfg, r), cfg)
  {
    hide Inv, Steady, WaitersParked, FailAll, DiscardLate, Take, ApplyLimits;
    InvFacts(c, cfg);
    CloseKeeps(c, cfg, socket);
    if !c.closed && r.id in c.pending {
      if c.pending[r.id].timedOut {
        DiscardLateKeeps(c, cfg, socket, r);
      } else if r.assembled.Complete? && r.assembled.size <= cfg.maxResponseBytes {
        CompleteKeeps(c, cfg, socket, r);
      }
    }
  }

  lemma LateFacts(c: Connection, cfg: Config, id: nat)
    requires Between(c, cfg, NONE, {}, {}) && id in c.pending && c.pending[id].timedOut
    ensures var p := c.pending[id]; p.call in c.outcomes && p.hasCredit && !p.indefinite && id in Ids(c.writes.handed)
  {
  }

  /** The last late frame: the request leaves the table, settled long ago. */
  lemma {:induction false} DropLateKeeps(c: Connection, cfg: Config, socket: W.Socket, id: nat)
    requires Between(c, cfg, NONE, {}, {}) && id in c.pending && c.pending[id].timedOut
    ensures Inv(TakePending(c, id), cfg)
  {
    hide F.AtRest, CreditsOk, CallsOk, LabelsOk, WaitersParked;
    LateFacts(c, cfg, id);
    hide Between, TakePending;
    var call := c.pending[id].call;
    assert {} - {id} == {} && {} + {call} == {call} && {call} - {call} == {};
    TakePendingKeeps(c, cfg, socket, NONE, {}, {}, id);
    SettleKeeps(TakePending(c, id), cfg, NONE, {}, {call}, call, Resolved);
  }

  lemma {:induction false} DiscardLateKeeps(c: Connection, cfg: Config, socket: W.Socket, r: Response)
    requires Inv(c, cfg) && r.id in c.pending && c.pending[r.id].timedOut
    ensures Inv(DiscardLate(c, cfg, r), cfg)
  {
    hide Between, FailAll, TakePending;
    var p := c.pending[r.id];
    var late := p.(discardedBytes := p.discardedBytes + r.bytes, discardedFrames := p.discardedFrames + 1);
    var d := c.(pending := c.pending[r.id := late]);
    LateFacts(c, cfg, r.id);
    UpdateKeeps(c, cfg, r.id, late);
    Facts(c, cfg, NONE, {}, {});
    Facts(d, cfg, NONE, {}, {});
    FailAllKeeps(d, cfg, socket);
    DropLateKeeps(d, cfg, socket, r.id);
  }

  // ----- The socket and the end of the connection -----

  lemma {:induction false} FlushKeeps(c: Connection, cfg: Config, socket: W.Socket)
    requires Inv(c, cfg)
    ensures Inv(SocketDrains(c, socket), cfg)
  {
    hide Between, W.Flush;
    FlushedKeeps(c, cfg, socket);
    var (writes, rejected) := W.Flush(c.writes, socket, c.closed, c.pending.Keys);
    TakeEachKeeps(c.(writes := writes), cfg, socket, RejectedIds(rejected), rejected);
    Facts(c, cfg, NONE, {}, {});
  }

  /** The frames have moved on; those to be rejected are still in the table. */
  lemma {:induction false} FlushedKeeps(c: Connection, cfg: Config, socket: W.Socket)
    requires Inv(c, cfg)
    ensures var (writes, rejected) := W.Flush(c.writes, socket, c.closed, c.pending.Keys);
            Between(c.(writes := writes), cfg, NONE, RejectedIds(rejected), {}) && Rejects(rejected, RejectedIds(rejected))
  {
    hide F.Valid, F.AtRest, CreditsOk, WaitersParked, QueueOk, CallsOk, LabelsOk, PlacesOk, Rejects, Ids, W.Flush;
    var (writes, rejected) := W.Flush(c.writes, socket, c.closed, c.pending.Keys);
    FlushPlaces(c.writes, socket, cfg.maxQueuedWriteBytes, c.closed, c.pending, c.nextId);
    FlushLabels(c.outcomes, c.idOf, c.writes, writes);
    CallsDependOn(c, c.(writes := writes), {});
  }

  /** Frames go from the queue to the socket, or are rejected. */
  ghost predicate Drained(w: W.Writes, v: W.Writes) {
    Ids(w.handed) <= Ids(v.handed) <= Ids(w.handed) + Ids(w.queue) && Ids(v.queue) <= Ids(w.queue)
  }

  lemma {:induction false} FlushPlaces(w: W.Writes, socket: W.Socket, maxBytes: nat, closed: bool, pending: map<nat, Pending>, nextId: nat)
    requires QueueOk(w, maxBytes) && PlacesOk(Ids(w.queue), Ids(w.handed), pending, {}, nextId) && (closed ==> pending == map[])
    ensures var (v, rejected) := W.Flush(w, socket, closed, pending.Keys);
            && QueueOk(v, maxBytes) && Rejects(rejected, RejectedIds(rejected)) && Drained(w, v)
            && PlacesOk(Ids(v.queue), Ids(v.handed), pending, RejectedIds(rejected), nextId)
  {
    W.OperationKeepsValid(w, socket, maxBytes, W.FlushOp(closed, pending.Keys));
    hide W.Valid;
    if !closed {
      FlushMoves(w.(blocked := false), socket, pending.Keys);
      hide W.FlushFrom, W.DistinctIds;
    }
  }

  lemma FlushLabels(outcomes: map<nat, Outcome>, idOf: map<nat, nat>, w: W.Writes, v: W.Writes)
    requires LabelsOk(outcomes, idOf, Ids(w.queue), Ids(w.handed)) && Drained(w, v)
    ensures LabelsOk(outcomes, idOf, Ids(v.queue), Ids(v.handed))
  {
    hide Ids;
  }

  ghost predicate FailingPlaces(queued: set<nat>, sent: set<nat>, pending: map<nat, Pending>, nextId: nat) {
    && queued !! sent && pending.Keys <= queued + sent
    && (forall id | id in pending :: id < nextId) && (forall id | id in sent :: id < nextId)
  }

  lemma PlacesWhileFailing(queued: set<nat>, sent: set<nat>, pending: map<nat, Pending>, nextId: nat)
    ensures PlacesOk(queued, sent, pending, {}, nextId) ==> FailingPlaces(queued, sent, pending, nextId)
    ensures FailingPlaces(queued, sent, map[], nextId) ==> PlacesOk({}, sent, map[], {}, nextId)
  {
  }

  /** While a failed connection rejects its requests: everything but the write queue, which is
      dropped at the end. */
  ghost predicate Failing(c: Connection, cfg: Config) {
    && Steady(c) && WaitersParked(c.flow, c.parked) && c.closed && c.flow.closed
    && CreditsOk(c.flow.active, NONE, c.pending, c.parked, c.flow.outcomes)
    && QueueOk(c.writes, cfg.maxQueuedWriteBytes)
    && FailingPlaces(Ids(c.writes.queue), Ids(c.writes.handed), c.pending, c.nextId)
    && CallsOk(c, {}) && LabelsOk(c.outcomes, c.idOf, {}, Ids(c.writes.handed))
  }

  lemma FailingPlacesWithout(queued: set<nat>, sent: set<nat>, pending: map<nat, Pending>, nextId: nat, id: nat)
    requires FailingPlaces(queued, sent, pending, nextId) && id in pending
    ensures FailingPlaces(queued, sent, pending - {id}, nextId) && id in queued + sent && queued !! sent
  {
  }

  /** The credit of a rejected request comes back after the flow control is closed. */
  lemma {:induction false} RejectOneCredit(c: Connection, id: nat)
    requires Steady(c) && WaitersParked(c.flow, c.parked) && c.flow.closed && id in c.pending && c.pending[id].hasCredit
    requires CreditsOk(c.flow.active, NONE, c.pending, c.parked, c.flow.outcomes)
    ensures var flow := F.Release(c.flow, c.pending[id].lane);
            && F.Valid(flow) && F.AtRest(flow) && WaitersParked(flow, c.parked) && flow.closed
            && CreditsOk(flow.active, NONE, c.pending - {id}, c.parked, flow.outcomes)
  {
    hide CreditsOk, WaitersParked;
    RemoveHolder(c.flow.active, NONE, c.pending, c.parked, c.flow.outcomes, id);
    ReleaseConserves(c.flow, c.pending[id].lane, NONE, c.pending - {id}, c.parked);
    F.ReleaseKeepsValid(c.flow, c.pending[id].lane);
  }

  lemma FailureLabels(outcomes: map<nat, Outcome>, idOf: map<nat, nat>, sent: set<nat>, call: nat, o: Outcome)
    requires LabelsOk(outcomes, idOf, {}, sent) && call in idOf
    requires o == if idOf[call] in sent then PossiblySent else Unsent
    ensures call !in outcomes ==> LabelsOk(outcomes[call := o], idOf, {}, sent)
  {
  }

  /** What the rejected request leaves behind, apart from its credit. */
  lemma {:induction false} RejectOneCalls(c: Connection, e: Connection, id: nat)
    requires CallsOk(c, {}) && LabelsOk(c.outcomes, c.idOf, {}, Ids(c.writes.handed)) && id in c.pending
    requires Ids(c.writes.queue) !! Ids(c.writes.handed) && id in Ids(c.writes.queue) + Ids(c.writes.handed)
    requires e == c.(pending := c.pending - {id}, flow := e.flow)
    ensures var d := Settle(e, c.pending[id].call, FailureOutcome(c, id));
            CallsOk(d, {}) && LabelsOk(d.outcomes, d.idOf, {}, Ids(d.writes.handed))
  {
    var call, o := c.pending[id].call, FailureOutcome(c, id);
    HoldsIsMembership(c.writes.queue, id);
    PendingFacts(c, {}, id);
    CallsWithout(c, {}, id);
    SettleWithout(c, e, id, o);
    FailureLabels(c.outcomes, c.idOf, Ids(c.writes.handed), call, o);
  }

  lemma {:induction false} RejectOneKeeps(c: Connection, cfg: Config, id: nat)
    requires Failing(c, cfg) && id in c.pending
    ensures var p := c.pending[id];
            F.Matches(c.flow) &&
            var d := if p.hasCredit then c.(flow := F.Release(c.flow, p.lane)) else c;
            Failing(Settle(d.(pending := d.pending - {id}), p.call, FailureOutcome(c, id)), cfg)
  {
    var p := c.pending[id];
    if p.hasCredit {
      RejectOneCredit(c, id);
    } else {
      RemoveControl(c.flow.active, NONE, c.pending, c.parked, c.flow.outcomes, id);
    }
    assert F.Matches(c.flow);
    FailingPlacesWithout(Ids(c.writes.queue), Ids(c.writes.handed), c.pending, c.nextId, id);
    hide F.Valid, F.AtRest, F.Matches, F.Release, WaitersParked, QueueOk, CallsOk, LabelsOk, CreditsOk, FailingPlaces;
    hide Ids, FailureOutcome;
    var d := if p.hasCredit then c.(flow := F.Release(c.flow, p.lane)) else c;
    var e := d.(pending := d.pending - {id});
    RejectOneCalls(c, e, id);
    var r := Settle(e, p.call, FailureOutcome(c, id));
    assert r == e.(outcomes := r.outcomes);
  }

  lemma {:induction false} SettleWithout(c: Connection, e: Connection, id: nat, o: Outcome)
    requires id in c.pending && CallsOk(c.(pending := c.pending - {id}), {} + {c.pending[id].call})
    requires e == c.(pending := c.pending - {id}, flow := e.flow)
    ensures CallsOk(Settle(e, c.pending[id].call, o), {})
  {
    hide CallsOk;
    var call := c.pending[id].call;
    CallsDependOn(c.(pending := c.pending - {id}), e, {} + {call});
    SettleCalls(e, {} + {call}, call, o);
    assert {} + {call} - {call} == {};
  }

  lemma {:induction false} RejectFromKeeps(c: Connection, cfg: Config, id: nat)
    requires Failing(c, cfg) && forall i | i in c.pending :: i >= id
    ensures Failing(RejectFrom(c, id), cfg) && RejectFrom(c, id).pending == map[]
    ensures RejectFrom(c, id).writes == c.writes
    decreases c.nextId - id
  {
    hide F.Valid, F.AtRest, CreditsOk, WaitersParked, QueueOk, CallsOk, LabelsOk;
    if id < c.nextId {
      if id !in c.pending {
        RejectFromKeeps(c, cfg, id + 1);
      } else {
        var p := c.pending[id];
        RejectOneKeeps(c, cfg, id);
        var d := if p.hasCredit then c.(flow := F.Release(c.flow, p.lane)) else c;
        RejectFromKeeps(Settle(d.(pending := d.pending - {id}), p.call, FailureOutcome(c, id)), cfg, id + 1);
      }
    }
  }

  lemma QueueIsLost(queued: set<nat>, sent: set<nat>, pending: map<nat, Pending>, nextId: nat, c: Connection)
    requires PlacesOk(queued, sent, pending, {}, nextId) && LabelsOk(c.outcomes, c.idOf, queued, sent)
    ensures PlacesOk({}, sent, pending, queued, nextId) && LabelsOk(c.outcomes, c.idOf, {}, sent)
  {
  }

  lemma {:induction false} StartFailing(c: Connection, cfg: Config)
    requires Between(c, cfg, NONE, {}, {}) && !c.closed
    ensures F.Valid(F.Close(c.flow)) && F.AtRest(F.Close(c.flow))
    ensures Failing(c.(closed := true, flow := F.Close(c.flow)), cfg)
  {
    F.CancelSettlesAll(c.flow);
    CloseConserves(c.flow, NONE, c.pending, c.parked);
    var d := c.(closed := true, flow := F.Close(c.flow));
    assert d.flow.closed;
    QueueIsLost(Ids(c.writes.queue), Ids(c.writes.handed), c.pending, c.nextId, c);
    PlacesWhileFailing(Ids(c.writes.queue), Ids(c.writes.handed), c.pending, c.nextId);
    hide F.Valid, F.AtRest, F.Close, CreditsOk, WaitersParked, QueueOk, CallsOk, LabelsOk, Ids, PlacesOk, FailingPlaces;
    CallsDependOn(c, d, {});
  }

  /** Dropping the whole queue. */
  lemma {:induction false} DropQueueKeeps(w: W.Writes, socket: W.Socket, maxBytes: nat)
    requires QueueOk(w, maxBytes)
    ensures QueueOk(W.Clear(w), maxBytes) && QueueOk(W.RejectQueued(w).0, maxBytes)
    ensures Ids(W.Clear(w).queue) == {} && Ids(W.RejectQueued(w).0.queue) == {}
    ensures RejectedIds(W.RejectQueued(w).1) == Ids(w.queue) && DistinctRejections(W.RejectQueued(w).1)
  {
    W.ClearKeepsValid(w, maxBytes);
  }

  lemma {:induction false} StopFailingQueue(c: Connection, cfg: Config, w: W.Writes)
    requires Failing(c, cfg) && c.pending == map[] && w == W.Clear(c.writes)
    ensures QueueOk(w, cfg.maxQueuedWriteBytes) && PlacesOk(Ids(w.queue), Ids(w.handed), c.pending, {}, c.nextId)
    ensures LabelsOk(c.outcomes, c.idOf, Ids(w.queue), Ids(w.handed)) && Controls(c.pending) == {}
  {
    hide CallsOk, CreditsOk, Steady, WaitersParked;
    W.ClearKeepsValid(c.writes, cfg.maxQueuedWriteBytes);
    assert Ids(w.queue) == {};
    PlacesWhileFailing(Ids(c.writes.queue), Ids(c.writes.handed), c.pending, c.nextId);
  }

  lemma {:induction false} StopFailing(c: Connection, cfg: Config, socket: W.Socket)
    requires Failing(c, cfg) && c.pending == map[]
    ensures Inv(c.(pending := map[], controls := 0, writes := W.Clear(c.writes)), cfg)
  {
    var w := W.Clear(c.writes);
    StopFailingQueue(c, cfg, w);
    hide F.Valid, F.AtRest, CreditsOk, WaitersParked, CallsOk, LabelsOk, QueueOk, PlacesOk, FailingPlaces, Ids, Controls, W.Clear;
    var r := c.(pending := map[], controls := 0, writes := w);
    CallsDependOn(c, r, {});
  }

  lemma {:induction false} FailAllKeeps(c: Connection, cfg: Config, socket: W.Socket)
    requires Between(c, cfg, NONE, {}, {})
    ensures Inv(FailAll(c), cfg) && FailAll(c).closed
  {
    Facts(c, cfg, NONE, {}, {});
    assert c.closed ==> DrainOk(c);
    hide Between, Failing, RejectFrom;
    if !c.closed {
      StartFailing(c, cfg);
      var d := c.(closed := true, flow := F.Close(c.flow));
      RejectFromKeeps(d, cfg, 0);
      StopFailing(RejectFrom(d, 0), cfg, socket);
    }
  }

  lemma {:induction false} FailureIsTruthful(c: Connection, cfg: Config, id: nat)
    requires Between(c, cfg, NONE, {}, {}) && id in c.pending
    ensures TruthfulFor(c, id, FailureOutcome(c, id))
  {
    hide F.Valid, F.AtRest, CreditsOk, WaitersParked, QueueOk, CallsOk, LabelsOk;
    HoldsIsMembership(c.writes.queue, id);
  }

  lemma {:induction false} TakeIndefiniteKeeps(c: Connection, cfg: Config, socket: W.Socket, n: nat)
    requires Between(c, cfg, NONE, {}, {})
    ensures Between(TakeIndefinite(c, n), cfg, NONE, {}, {})
  {
    hide Between, Take, F.Valid, F.AtRest, CreditsOk, CallsOk, LabelsOk, QueueOk, PlacesOk, WaitersParked;
    Facts(c, cfg, NONE, {}, {});
    if n > 0 {
      TakeIndefiniteKeeps(c, cfg, socket, n - 1);
      var d := TakeIndefinite(c, n - 1);
      Facts(d, cfg, NONE, {}, {});
      if n - 1 in d.pending && d.pending[n - 1].indefinite {
        FailureIsTruthful(d, cfg, n - 1);
        TakeKeeps(d, cfg, socket, NONE, {}, {}, n - 1, FailureOutcome(d, n - 1));
        assert {} - {n - 1} == {};
      }
    }
  }

  lemma {:induction false} StartDraining(c: Connection, cfg: Config, socket: W.Socket)
    requires Between(c, cfg, NONE, {}, {})
    ensures var (writes, rejected) := W.RejectQueued(c.writes);
            && Rejects(rejected, RejectedIds(rejected))
            && Between(c.(draining := true, flow := F.CancelQueued(c.flow), writes := writes), cfg, NONE, RejectedIds(rejected), {})
  {
    var (writes, rejected) := W.RejectQueued(c.writes);
    var d := c.(draining := true, flow := F.CancelQueued(c.flow), writes := writes);
    F.CancelSettlesAll(c.flow);
    CloseConserves(c.flow, NONE, c.pending, c.parked);
    DropQueueKeeps(c.writes, socket, cfg.maxQueuedWriteBytes);
    QueueIsLost(Ids(c.writes.queue), Ids(c.writes.handed), c.pending, c.nextId, c);
    hide F.Valid, F.AtRest, CreditsOk, WaitersParked, CallsOk, QueueOk, PlacesOk, LabelsOk, DistinctRejections;
    CallsDependOn(c, d, {});
  }

  lemma {:induction false} BeginDrainingKeeps(c: Connection, cfg: Config, socket: W.Socket)
    requires Inv(c, cfg)
    ensures Inv(BeginDraining(c), cfg)
  {
    hide Between, TakeEach, TakeIndefinite, FinishDrainIfIdle;
    Facts(c, cfg, NONE, {}, {});
    StartDraining(c, cfg, socket);
    var (writes, rejected) := W.RejectQueued(c.writes);
    var d := c.(draining := true, flow := F.CancelQueued(c.flow), writes := writes);
    Facts(d, cfg, NONE, RejectedIds(rejected), {});
    TakeEachKeeps(d, cfg, socket, RejectedIds(rejected), rejected);
    var e := TakeEach(d, rejected);
    Facts(e, cfg, NONE, {}, {});
    TakeIndefiniteKeeps(e, cfg, socket, e.nextId);
    FinishKeeps(TakeIndefinite(e, e.nextId), cfg, NONE, {}, {});
  }

  lemma {:induction false} WriteFailsKeeps(c: Connection, cfg: Config, socket: W.Socket, id: nat)
    requires Inv(c, cfg)
    ensures Inv(WriteFails(c, id), cfg)
  {
    InvFacts(c, cfg);
    HoldsIsMembership(c.writes.handed, id);
    hide Inv, Take;
    if W.Holds(c.writes.handed, id) {
      if id in c.pending {
        TakeKeepsInv(c, cfg, socket, id, PossiblySent);
      } else {
        NothingToTake(c, id, PossiblySent);
      }
    }
  }

  lemma NothingToTake(c: Connection, id: nat, o: Outcome)
    requires Steady(c) && id !in c.pending
    ensures Take(c, id, o) == c
  {
  }

  lemma {:induction false} CloseKeeps(c: Connection, cfg: Config, socket: W.Socket)
    requires Inv(c, cfg)
    ensures Inv(FailAll(c), cfg)
  {
    FailAllKeeps(c, cfg, socket);
  }

  lemma {:induction false} GraceExpiresKeeps(c: Connection, cfg: Config, socket: W.Socket, id: nat)
    requires Inv(c, cfg)
    ensures Inv(GraceExpires(c, id), cfg)
  {
    InvFacts(c, cfg);
    hide FailAll, Inv;
    CloseKeeps(c, cfg, socket);
  }

  lemma {:induction false} StepKeepsInv(c: Connection, cfg: Config, socket: W.Socket, step: Step)
    requires Inv(c, cfg)
    ensures Inv(Apply(c, cfg, socket, step), cfg)
  {
    hide F.Valid, F.AtRest, CreditsOk, CallsOk, LabelsOk, QueueOk, PlacesOk, WaitersParked;
    InvFacts(c, cfg);
    hide Inv, Request, Resume, WaiterExpires, RequestExpires, HandleFrame, ApplyLimits, ApplyLaneQueueLimit;
    hide SocketDrains, BeginDraining, FailAll, WriteFails, GraceExpires, Steady, WaitersParked;
    match step
    case RequestStep(cmd, privileged) => RequestKeeps(c, cfg, socket, cmd, privileged);
    case ResumeStep(w, expired, frame) => ResumeKeeps(c, cfg, socket, w, expired, frame);
    case WaiterExpiresStep(w) => WaiterExpiresKeeps(c, cfg, w);
    case RequestExpiresStep(id, bytes, frames) => RequestExpiresKeeps(c, cfg, socket, id, bytes, frames);
    case GraceExpiresStep(id) => GraceExpiresKeeps(c, cfg, socket, id);
    case FrameStep(response) => HandleFrameKeeps(c, cfg, socket, response);
    case LimitsStep(connection, lane) => LimitsKeep(c, cfg, connection, lane, 0);
    case LaneQueueStep(limit) => LimitsKeep(c, cfg, None, None, limit);
    case WriteFailsStep(id) => WriteFailsKeeps(c, cfg, socket, id);
    case SocketDrainsStep => FlushKeeps(c, cfg, socket);
    case GoAwayStep => BeginDrainingKeeps(c, cfg, socket);
    case CloseStep => CloseKeeps(c, cfg, socket);
  }
}
