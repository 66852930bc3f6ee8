/** What every step of a connection keeps: credits are conserved, every request is settled or
    still on its way to be, and no request reported as unsent has ever reached the socket. */
module ConnectionInvariant {
  import F = FlowControlModel
  import W = WriteQueueModel
  import opened NativeConnectionModel

  // ----- The parts of the invariant -----

  function Holders(pending: map<nat, Pending>, lane: int): set<nat> {
    set id | id in pending && pending[id].hasCredit && pending[id].lane == lane
  }

  function Controls(pending: map<nat, Pending>): set<nat> {
    set id | id in pending && !pending[id].hasCredit
  }

  /** The waiters of the lane that have been given a credit and not been resumed. */
  function GrantedOn(parked: map<nat, Parked>, settled: map<nat, F.Outcome>, lane: int): set<nat> {
    set w | w in parked && w in settled && settled[w] == F.Granted && parked[w].lane == lane
  }

  /** On every lane the credits in use are those of the correlated requests, of the granted
      waiters and of the request in `hand`. */
  ghost predicate CreditsOk(active: multiset<int>, hand: multiset<int>, pending: map<nat, Pending>,
                            parked: map<nat, Parked>, settled: map<nat, F.Outcome>) {
    forall lane :: active[lane] == hand[lane] + |Holders(pending, lane)| + |GrantedOn(parked, settled, lane)|
  }

  function Ids(queue: seq<W.Job>): set<nat> {
    set i | 0 <= i < |queue| :: queue[i].requestId
  }

  /** A correlated request is in the write queue or with the socket, never both and never
      neither, except those in `lost`, which are about to be rejected. */
  ghost predicate PlacesOk(queued: set<nat>, sent: set<nat>, pending: map<nat, Pending>, lost: set<nat>, nextId: nat) {
    && queued !! sent && lost !! queued && lost !! sent
    && queued <= pending.Keys && lost <= pending.Keys && pending.Keys <= queued + sent + lost
    && (forall id | id in pending :: id < nextId)
    && (forall id | id in sent :: id < nextId)
    && forall id | id in pending && pending[id].timedOut ::
         id in sent && pending[id].hasCredit && !pending[id].indefinite
  }

  ghost predicate HasOwner(call: nat, idOf: map<nat, nat>, pending: map<nat, Pending>, parked: map<nat, Parked>) {
    (call in idOf && idOf[call] in pending) || exists w :: w in parked && parked[w].call == call
  }

  ghost predicate IdsOk(calls: nat, idOf: map<nat, nat>, nextId: nat) {
    && (forall call | call in idOf :: call < calls && idOf[call] < nextId)
    && forall a, b | a in idOf && b in idOf && idOf[a] == idOf[b] :: a == b
  }

  /** A correlated request stands for the call it was made for, unsettled unless timed out. */
  ghost predicate PendingOk(pending: map<nat, Pending>, idOf: map<nat, nat>, outcomes: map<nat, Outcome>, busy: set<nat>) {
    forall id | id in pending ::
      && pending[id].call in idOf && idOf[pending[id].call] == id && pending[id].call !in busy
      && (pending[id].call in outcomes <==> pending[id].timedOut)
  }

  ghost predicate ParkedOk(parked: map<nat, Parked>, calls: nat, idOf: map<nat, nat>, outcomes: map<nat, Outcome>, busy: set<nat>) {
    && (forall w | w in parked :: parked[w].call < calls && parked[w].call !in idOf && parked[w].call !in outcomes
                                  && parked[w].call !in busy)
    && forall v, w | v in parked && w in parked && parked[v].call == parked[w].call :: v == w
  }

  /** Every call is settled, or it is being worked on, or something that will settle it is left. */
  ghost predicate OwnersOk(c: Connection, busy: set<nat>) {
    && (forall call | call in c.outcomes :: call < c.calls)
    && (forall call | call in busy :: call < c.calls)
    && forall call: nat | call < c.calls && call !in c.outcomes && call !in busy :: HasOwner(call, c.idOf, c.pending, c.parked)
  }

  /** "Unsent" is only said of requests whose frame is not with the socket and not queued for it,
      "possibly sent" only of those whose frame is with the socket. */
  ghost predicate LabelsOk(outcomes: map<nat, Outcome>, idOf: map<nat, nat>, queued: set<nat>, sent: set<nat>) {
    && (forall call | call in outcomes && NeverSent(outcomes[call]) && call in idOf :: idOf[call] !in queued && idOf[call] !in sent)
    && forall call | call in outcomes && MaybeSent(outcomes[call]) :: call in idOf && idOf[call] in sent
  }

  ghost predicate CallsOk(c: Connection, busy: set<nat>) {
    && IdsOk(c.calls, c.idOf, c.nextId) && PendingOk(c.pending, c.idOf, c.outcomes, busy)
    && ParkedOk(c.parked, c.calls, c.idOf, c.outcomes, busy) && OwnersOk(c, busy)
  }

  ghost predicate GateOk(c: Connection) {
    && (c.closed <==> c.flow.closed)
    && (c.closed ==> c.pending == map[])
  }

  ghost predicate QueueOk(w: W.Writes, maxBytes: nat) {
    W.Valid(w, maxBytes) && W.DistinctIds(w.queue) && W.DistinctIds(w.handed)
  }

  /** What holds inside a step: `hand` are credits held by the request being worked on, `lost`
      the requests about to be rejected and `busy` the calls about to be settled. */
  ghost predicate Between(c: Connection, cfg: Config, hand: multiset<int>, lost: set<nat>, busy: set<nat>) {
    && Steady(c) && WaitersParked(c.flow, c.parked)
    && CreditsOk(c.flow.active, hand, c.pending, c.parked, c.flow.outcomes)
    && c.controls == |Controls(c.pending)| <= cfg.maxControls
    && QueueOk(c.writes, cfg.maxQueuedWriteBytes)
    && PlacesOk(Ids(c.writes.queue), Ids(c.writes.handed), c.pending, lost, c.nextId)
    && CallsOk(c, busy)
    && LabelsOk(c.outcomes, c.idOf, Ids(c.writes.queue), Ids(c.writes.handed))
    && GateOk(c)
  }

  /** A draining connection that is still open has something to wait for. */
  predicate DrainOk(c: Connection) {
    c.draining && !c.closed ==> c.pending != map[]
  }

  ghost predicate Inv(c: Connection, cfg: Config) {
    Between(c, cfg, multiset{}, {}, {}) && DrainOk(c)
  }

  // ----- Credits -----

  lemma {:induction false} RemoveHolder(active: multiset<int>, hand: multiset<int>, pending: map<nat, Pending>, parked: map<nat, Parked>,
                     settled: map<nat, F.Outcome>, id: nat)
    requires CreditsOk(active, hand, pending, parked, settled) && id in pending && pending[id].hasCredit
    ensures pending[id].lane in active
    ensures CreditsOk(active - multiset{pending[id].lane}, hand, pending - {id}, parked, settled)
    ensures Controls(pending - {id}) == Controls(pending)
  {
    var lane := pending[id].lane;
    assert id in Holders(pending, lane);
    forall l
      ensures Holders(pending - {id}, l) == if l == lane then Holders(pending, l) - {id} else Holders(pending, l)
    {
    }
  }

  lemma {:induction false} RemoveControl(active: multiset<int>, hand: multiset<int>, pending: map<nat, Pending>, parked: map<nat, Parked>,
                      settled: map<nat, F.Outcome>, id: nat)
    requires CreditsOk(active, hand, pending, parked, settled) && id in pending && !pending[id].hasCredit
    ensures CreditsOk(active, hand, pending - {id}, parked, settled)
    ensures |Controls(pending - {id})| == |Controls(pending)| - 1
  {
    assert Controls(pending - {id}) == Controls(pending) - {id};
    assert id in Controls(pending);
    forall l
      ensures Holders(pending - {id}, l) == Holders(pending, l)
    {
    }
  }

  lemma {:induction false} HoldersGain(pending: map<nat, Pending>, id: nat, p: Pending)
    requires p.hasCredit && id !in pending
    ensures forall l :: |Holders(pending[id := p], l)| == |Holders(pending, l)| + (if l == p.lane then 1 else 0)
    ensures Controls(pending[id := p]) == Controls(pending)
  {
    forall l
      ensures |Holders(pending[id := p], l)| == |Holders(pending, l)| + (if l == p.lane then 1 else 0)
    {
      assert Holders(pending[id := p], l) == if l == p.lane then Holders(pending, l) + {id} else Holders(pending, l);
    }
  }

  lemma {:induction false} AddHolder(active: multiset<int>, hand: multiset<int>, pending: map<nat, Pending>, parked: map<nat, Parked>,
                  settled: map<nat, F.Outcome>, id: nat, p: Pending)
    requires p.hasCredit && CreditsOk(active, multiset{p.lane}, pending, parked, settled) && id !in pending
    ensures CreditsOk(active, multiset{}, pending[id := p], parked, settled)
    ensures Controls(pending[id := p]) == Controls(pending)
  {
    HoldersGain(pending, id, p);
  }

  lemma {:induction false} AddControl(active: multiset<int>, pending: map<nat, Pending>, parked: map<nat, Parked>,
                   settled: map<nat, F.Outcome>, id: nat, p: Pending)
    requires !p.hasCredit && CreditsOk(active, multiset{}, pending, parked, settled) && id !in pending
    ensures CreditsOk(active, multiset{}, pending[id := p], parked, settled)
    ensures |Controls(pending[id := p])| == |Controls(pending)| + 1
  {
    assert Controls(pending[id := p]) == Controls(pending) + {id};
    forall l
      ensures Holders(pending[id := p], l) == Holders(pending, l)
    {
    }
  }

  /** Changing a request without moving its credit. */
  lemma {:induction false} UpdatePending(active: multiset<int>, hand: multiset<int>, pending: map<nat, Pending>, parked: map<nat, Parked>,
                      settled: map<nat, F.Outcome>, id: nat, p: Pending)
    requires CreditsOk(active, hand, pending, parked, settled) && id in pending
    requires p.hasCredit == pending[id].hasCredit && p.lane == pending[id].lane
    ensures CreditsOk(active, hand, pending[id := p], parked, settled)
    ensures Controls(pending[id := p]) == Controls(pending)
  {
    forall l
      ensures Holders(pending[id := p], l) == Holders(pending, l)
    {
    }
  }

  lemma {:induction false} GrantedGain(parked: map<nat, Parked>, settled: map<nat, F.Outcome>, w: nat)
    requires w in parked && w !in settled
    ensures forall l :: |GrantedOn(parked, settled[w := F.Granted], l)|
                        == |GrantedOn(parked, settled, l)| + (if l == parked[w].lane then 1 else 0)
  {
    forall l
      ensures |GrantedOn(parked, settled[w := F.Granted], l)|
           == |GrantedOn(parked, settled, l)| + (if l == parked[w].lane then 1 else 0)
    {
      GrantedGainOn(parked, settled, w, l);
    }
  }

  lemma GrantedGainOn(parked: map<nat, Parked>, settled: map<nat, F.Outcome>, w: nat, l: int)
    requires w in parked && w !in settled
    ensures w !in GrantedOn(parked, settled, l)
    ensures GrantedOn(parked, settled[w := F.Granted], l)
         == if l == parked[w].lane then GrantedOn(parked, settled, l) + {w} else GrantedOn(parked, settled, l)
  {
  }

  /** A credit granted to a waiter moves from being free to being held by that waiter. */
  lemma {:induction false} GrantConserves(f: F.Flow, p: nat, hand: multiset<int>, pending: map<nat, Pending>, parked: map<nat, Parked>)
    requires F.Valid(f) && p < |f.ready| && F.ReadyAt(f, p) && WaitersParked(f, parked)
    requires CreditsOk(f.active, hand, pending, parked, f.outcomes)
    ensures WaitersParked(F.Grant(f, p), parked)
    ensures CreditsOk(F.Grant(f, p).active, hand, pending, parked, F.Grant(f, p).outcomes)
  {
    var g, lane := F.Grant(f, p), f.ready[p];
    var w := f.queues[lane][0];
    assert F.Queued(f.queues, lane, w);
    F.GrantKeepsQueues(f, p);
    GrantedGain(parked, f.outcomes, w);
  }

  lemma {:induction false} PumpConserves(f: F.Flow, hand: multiset<int>, pending: map<nat, Pending>, parked: map<nat, Parked>)
    requires F.Valid(f) && WaitersParked(f, parked) && CreditsOk(f.active, hand, pending, parked, f.outcomes)
    ensures WaitersParked(F.Pump(f), parked)
    ensures CreditsOk(F.Pump(f).active, hand, pending, parked, F.Pump(f).outcomes)
    decreases f.connectionLimit - |f.active|
  {
    hide CreditsOk;
    if F.CanGrant(f) {
      var p := F.FirstGrantable(f, 0).value;
      assert f.ready[p] in f.ready;
      F.GrantKeepsValid(f, p);
      GrantConserves(f, p, hand, pending, parked);
      PumpConserves(F.Grant(f, p), hand, pending, parked);
    }
  }

  /** Giving back a credit that someone holds. */
  lemma {:induction false} ReleaseConserves(f: F.Flow, lane: int, hand: multiset<int>, pending: map<nat, Pending>, parked: map<nat, Parked>)
    requires F.Valid(f) && F.AtRest(f) && WaitersParked(f, parked) && lane in f.active
    requires CreditsOk(f.active - multiset{lane}, hand, pending, parked, f.outcomes)
    ensures WaitersParked(F.Release(f, lane), parked)
    ensures CreditsOk(F.Release(f, lane).active, hand, pending, parked, F.Release(f, lane).outcomes)
    ensures F.Release(f, lane).closed == f.closed
  {
    F.PumpSettles(F.ReturnCredit(f, lane));
    PumpConserves(F.ReturnCredit(f, lane), hand, pending, parked);
  }

  /** Settling waiters as anything but granted moves no credit. */
  lemma {:induction false} OthersConserve(active: multiset<int>, hand: multiset<int>, pending: map<nat, Pending>, parked: map<nat, Parked>,
                       a: map<nat, F.Outcome>, b: map<nat, F.Outcome>)
    requires CreditsOk(active, hand, pending, parked, a)
    requires forall w | w in a :: w in b && a[w] == b[w]
    requires forall w | w in b && w !in a :: b[w] != F.Granted
    ensures CreditsOk(active, hand, pending, parked, b)
  {
    forall l
      ensures GrantedOn(parked, a, l) == GrantedOn(parked, b, l)
    {
    }
  }

  lemma {:induction false} CloseConserves(f: F.Flow, hand: multiset<int>, pending: map<nat, Pending>, parked: map<nat, Parked>)
    requires F.Valid(f) && WaitersParked(f, parked) && CreditsOk(f.active, hand, pending, parked, f.outcomes)
    ensures WaitersParked(F.Close(f), parked) && WaitersParked(F.CancelQueued(f), parked)
    ensures CreditsOk(F.Close(f).active, hand, pending, parked, F.Close(f).outcomes)
    ensures CreditsOk(F.CancelQueued(f).active, hand, pending, parked, F.CancelQueued(f).outcomes)
  {
    F.CancelSettlesAll(f);
    OthersConserve(f.active, hand, pending, parked, f.outcomes, F.CancelQueued(f).outcomes);
    OthersConserve(f.active, hand, pending, parked, f.outcomes, F.Close(f).outcomes);
  }

  /** The resumed waiter's credit, if it has one, passes into hand. */
  lemma {:induction false} UnparkConserves(active: multiset<int>, pending: map<nat, Pending>, parked: map<nat, Parked>,
                        settled: map<nat, F.Outcome>, w: nat)
    requires CreditsOk(active, multiset{}, pending, parked, settled) && w in parked && w in settled
    ensures CreditsOk(active, if settled[w] == F.Granted then multiset{parked[w].lane} else multiset{},
                      pending, parked - {w}, settled)
  {
    forall l
      ensures GrantedOn(parked - {w}, settled, l) == GrantedOn(parked, settled, l) - {w}
      ensures w in GrantedOn(parked, settled, l) <==> settled[w] == F.Granted && parked[w].lane == l
    {
    }
  }

  // ----- The write queue as sets of requests -----

  lemma HoldsIsMembership(queue: seq<W.Job>, id: nat)
    ensures W.Holds(queue, id) <==> id in Ids(queue)
  {
  }

  lemma {:induction false} IdsAppend(queue: seq<W.Job>, job: W.Job)
    ensures Ids(queue + [job]) == Ids(queue) + {job.requestId}
    ensures W.DistinctIds(queue) && job.requestId !in Ids(queue) ==> W.DistinctIds(queue + [job])
  {
    var q := queue + [job];
    forall id
      ensures id in Ids(q) <==> id in Ids(queue) || id == job.requestId
    {
      if id in Ids(queue) {
        var i :| 0 <= i < |queue| && queue[i].requestId == id;
        assert q[i].requestId == id;
      }
      assert q[|queue|] == job;
    }
  }

  lemma {:induction false} IdsTail(queue: seq<W.Job>)
    requires queue != [] && W.DistinctIds(queue)
    ensures W.DistinctIds(queue[1..]) && Ids(queue[1..]) == Ids(queue) - {queue[0].requestId}
    ensures queue[0].requestId in Ids(queue)
  {
    var q := queue[1..];
    forall id
      ensures id in Ids(q) <==> id in Ids(queue) && id != queue[0].requestId
    {
      if id in Ids(queue) && id != queue[0].requestId {
        var i :| 0 <= i < |queue| && queue[i].requestId == id;
        assert q[i - 1].requestId == id;
      }
      if id in Ids(q) {
        var i :| 0 <= i < |q| && q[i].requestId == id;
        assert queue[i + 1].requestId == id;
      }
    }
  }

  lemma {:induction false} IdsCancel(queue: seq<W.Job>, id: nat)
    requires W.DistinctIds(queue)
    ensures Ids(W.WithoutId(queue, id)) == Ids(queue) - {id} && W.DistinctIds(W.WithoutId(queue, id))
    decreases |queue|
  {
    if queue != [] {
      IdsTail(queue);
      var rest := W.WithoutId(queue[1..], id);
      IdsCancel(queue[1..], id);
      if queue[0].requestId != id { IdsPrepend(queue[0], rest); }
    }
  }

  lemma {:induction false} IdsPrepend(job: W.Job, queue: seq<W.Job>)
    requires W.DistinctIds(queue) && job.requestId !in Ids(queue)
    ensures Ids([job] + queue) == Ids(queue) + {job.requestId} && W.DistinctIds([job] + queue)
  {
    var q := [job] + queue;
    forall id
      ensures id in Ids(q) <==> id in Ids(queue) || id == job.requestId
    {
      if id in Ids(queue) {
        var i :| 0 <= i < |queue| && queue[i].requestId == id;
        assert q[i + 1].requestId == id;
      }
      assert q[0] == job;
    }
    forall i, j | 0 <= i < j < |q|
      ensures q[i].requestId != q[j].requestId
    {
      assert queue[j - 1].requestId in Ids(queue);
    }
  }

  function RejectedIds(rejections: seq<W.Rejection>): set<nat> {
    set i | 0 <= i < |rejections| :: rejections[i].requestId
  }

  predicate DistinctRejections(rejections: seq<W.Rejection>) {
    forall i, j | 0 <= i < j < |rejections| :: rejections[i].requestId != rejections[j].requestId
  }

  /** `lost` are the requests to reject, each once. */
  ghost predicate Rejects(rejections: seq<W.Rejection>, lost: set<nat>) {
    DistinctRejections(rejections) && lost == RejectedIds(rejections)
  }

  lemma {:induction false} RejectsTail(rejections: seq<W.Rejection>, lost: set<nat>)
    requires Rejects(rejections, lost) && rejections != []
    ensures rejections[0].requestId in lost && Rejects(rejections[1..], lost - {rejections[0].requestId})
  {
    var rest := rejections[1..];
    forall id
      ensures id in RejectedIds(rest) <==> id in lost && id != rejections[0].requestId
    {
      if id in lost && id != rejections[0].requestId {
        var i :| 0 <= i < |rejections| && rejections[i].requestId == id;
        assert rest[i - 1].requestId == id;
      }
      if id in RejectedIds(rest) {
        var i :| 0 <= i < |rest| && rest[i].requestId == id;
        assert rejections[i + 1].requestId == id;
      }
    }
  }

  lemma {:induction false} RejectsPrepend(rejection: W.Rejection, rejections: seq<W.Rejection>, lost: set<nat>)
    requires Rejects(rejections, lost) && rejection.requestId !in lost
    ensures Rejects([rejection] + rejections, lost + {rejection.requestId})
  {
    var all := [rejection] + rejections;
    forall id
      ensures id in RejectedIds(all) <==> id in lost || id == rejection.requestId
    {
      if id in lost {
        var i :| 0 <= i < |rejections| && rejections[i].requestId == id;
        assert all[i + 1].requestId == id;
      }
      assert all[0] == rejection;
    }
    forall i, j | 0 <= i < j < |all|
      ensures all[i].requestId != all[j].requestId
    {
      assert rejections[j - 1].requestId in lost;
    }
  }

  /** How an operation of the write queue moves requests: from the queue to the socket, or out
      of both to be rejected. */
  ghost predicate Moves(w: W.Writes, v: W.Writes, lost: set<nat>) {
    && Ids(w.handed) <= Ids(v.handed) && Ids(v.queue) <= Ids(w.queue)
    && Ids(v.handed) <= Ids(w.handed) + Ids(w.queue)
    && lost <= Ids(w.queue) && Ids(w.queue) <= Ids(v.queue) + Ids(v.handed) + lost
    && Ids(v.queue) !! Ids(v.handed) && lost !! Ids(v.queue) && lost !! Ids(v.handed)
    && W.DistinctIds(v.queue) && W.DistinctIds(v.handed)
  }

  lemma {:induction false} FlushMoves(w: W.Writes, socket: W.Socket, pending: set<nat>)
    requires W.DistinctIds(w.queue) && W.DistinctIds(w.handed) && Ids(w.queue) !! Ids(w.handed) && Ids(w.queue) <= pending
    ensures var (v, rejected) := W.FlushFrom(w, socket, pending);
            Rejects(rejected, RejectedIds(rejected)) && Moves(w, v, RejectedIds(rejected))
    decreases |w.queue|
  {
    if !w.blocked && w.queue != [] {
      var job, rest := w.queue[0], w.(queue := w.queue[1..]);
      IdsTail(w.queue);
      IdsAppend(w.handed, job);
      var (sent, first) := W.Send(rest, socket, job);
      FlushMoves(sent, socket, pending);
      var (v, more) := W.FlushFrom(sent, socket, pending);
      if first == [] {
        assert first + more == more;
      } else {
        RejectsPrepend(first[0], more, RejectedIds(more));
        assert first == [first[0]];
      }
    }
  }

  /** One frame is passed to the write queue: it is with the socket, or queued, or rejected. */
  lemma {:induction false} WriteMoves(w: W.Writes, socket: W.Socket, job: W.Job, maxBytes: nat)
    requires QueueOk(w, maxBytes) && Ids(w.queue) !! Ids(w.handed)
    requires job.requestId !in Ids(w.queue) && job.requestId !in Ids(w.handed)
    ensures var (v, rejected) := W.Write(w, socket, job, maxBytes);
            && QueueOk(v, maxBytes) && Rejects(rejected, RejectedIds(rejected))
            && RejectedIds(rejected) == (if rejected == [] then {} else {job.requestId})
            && Ids(w.handed) <= Ids(v.handed) <= Ids(w.handed) + {job.requestId}
            && Ids(w.queue) <= Ids(v.queue) <= Ids(w.queue) + {job.requestId}
            && job.requestId in Ids(v.queue) + Ids(v.handed) + RejectedIds(rejected)
            && RejectedIds(rejected) !! Ids(v.queue) && RejectedIds(rejected) !! Ids(v.handed)
            && Ids(v.queue) !! Ids(v.handed)
  {
    W.WriteKeepsValid(w, socket, maxBytes, job);
    IdsAppend(w.handed, job);
    IdsAppend(w.queue, job);
    var (v, rejected) := W.Write(w, socket, job, maxBytes);
    if rejected != [] {
      assert rejected[0].requestId == job.requestId;
      assert RejectedIds(rejected) == {job.requestId};
    }
  }
}
