/** Which event of a run settles a call in which way, when a connection closes, and which limits are in
    force: told of the run's steps, not of the functions that carry them out. */
module ConnectionEvents {
  import opened Wrappers
  import F = FlowControlModel
  import W = WriteQueueModel
  import opened NativeConnectionModel
  import opened ConnectionInvariant
  import opened ConnectionSteps
  import opened ConnectionRuns
  import opened ConnectionOutcomes

  // ----- The events -----

  /** A whole response for the request of this call arrives in time on an open connection. */
  predicate Answers(c: Connection, cfg: Config, r: Response, call: nat, ok: bool) {
    && !c.closed && r.id in c.pending && c.pending[r.id].call == call && !c.pending[r.id].timedOut
    && r.opcode == c.pending[r.id].opcode && r.lane == c.pending[r.id].lane
    && r.assembled.Complete? && r.assembled.size <= cfg.maxResponseBytes && r.assembled.ok == ok
  }

  predicate AnswerStep(c: Connection, cfg: Config, step: Step, call: nat, ok: bool) {
    step.FrameStep? && Answers(c, cfg, step.response, call, ok)
  }

  /** The timer of this call's request fires when its frame is with the socket. */
  predicate LateStep(c: Connection, step: Step, call: nat) {
    && step.RequestExpiresStep? && step.id in c.pending && c.pending[step.id].call == call
    && !c.pending[step.id].timedOut && !c.pending[step.id].indefinite && step.id !in Ids(c.writes.queue)
  }

  /** The step that makes a call end in `o`, for the outcomes that come from the server or its silence. */
  predicate Tells(c: Connection, cfg: Config, step: Step, call: nat, o: Outcome) {
    match o
    case Resolved => AnswerStep(c, cfg, step, call, true)
    case ServerError => AnswerStep(c, cfg, step, call, false)
    case PossiblySentTimeout => LateStep(c, step, call)
    case _ => false
  }

  predicate Answered(o: Outcome) {
    o.Resolved? || o.ServerError? || o.PossiblySentTimeout?
  }

  // ----- One step -----

  lemma {:induction false} OneClearedTells(v: View, id: nat, told: Outcome, call: nat, o: Outcome)
    requires Correlated(v) && call !in v.outcomes
    ensures OutcomeIn(Cleared(v, {id}, {}, told, told), call) == Some(o)
            <==> o == told && id in v.pending && v.pending[id].call == call && !v.pending[id].timedOut
  {
    ClearedAt(v, {id}, {}, told, told, call);
    hide Cleared;
  }

  lemma {:induction false} OthersClearedTell(v: View, gone: set<nat>, queued: set<nat>, first: Outcome, second: Outcome, call: nat, o: Outcome)
    requires call !in v.outcomes && o != first && o != second
    ensures OutcomeIn(Cleared(v, gone, queued, first, second), call) != Some(o)
  {
    ClearedAt(v, gone, queued, first, second, call);
    hide Cleared, Awaits;
  }

  lemma DispatchedTells(w: W.Writes, controls: nat, cfg: Config, socket: W.Socket, v: View, x: nat, cmd: Command, hasCredit: bool,
                        call: nat, o: Outcome)
    requires call !in v.outcomes && Answered(o)
    ensures OutcomeIn(Dispatched(w, controls, cfg, socket, v, x, cmd, hasCredit), call) != Some(o)
  {
    hide W.BytesOf;
  }

  lemma {:induction false} ReceivedTells(c: Connection, cfg: Config, r: Response, call: nat, o: Outcome)
    requires Viewable(c) && call !in c.outcomes && Answered(o)
    ensures OutcomeIn(Received(c, cfg, r), call) == Some(o) <==> Tells(c, cfg, FrameStep(r), call, o)
  {
    var v := ViewOf(c);
    hide Steady, Correlated, Below, Cleared, Ids;
    OthersClearedTell(v, v.pending.Keys, Ids(c.writes.queue), Unsent, PossiblySent, call, o);
    OneClearedTells(v, r.id, Resolved, call, o);
    OneClearedTells(v, r.id, ServerError, call, o);
  }

  lemma {:induction false} ExpiredTells(c: Connection, id: nat, chunkBytes: nat, chunkFrames: nat, call: nat, o: Outcome)
    requires Viewable(c) && call !in c.outcomes && Answered(o)
    ensures OutcomeIn(Expired(c, id, chunkBytes, chunkFrames), call) == Some(o)
            <==> o == PossiblySentTimeout && LateStep(c, RequestExpiresStep(id, chunkBytes, chunkFrames), call)
  {
    var v := ViewOf(c);
    hide Steady, Correlated, Below, Cleared, Ids;
    OneClearedTells(v, id, UnsentTimeout, call, o);
    OneClearedTells(v, id, PossiblySentTimeout, call, o);
  }

  lemma {:induction false} RequestedTells(c: Connection, cfg: Config, socket: W.Socket, cmd: Command, privileged: bool, call: nat, o: Outcome)
    requires call !in c.outcomes && Answered(o)
    ensures OutcomeIn(Requested(c, cfg, socket, cmd, privileged), call) != Some(o)
  {
    hide Dispatched, CreditIsFree, Waited;
    var v := ViewOf(c).(calls := c.calls + 1);
    DispatchedTells(c.writes, c.controls, cfg, socket, v, c.calls, cmd, false, call, o);
    DispatchedTells(c.writes, c.controls, cfg, socket, v, c.calls, cmd, true, call, o);
    WaitedTells(c.flow, v, c.calls, cmd, call, o);
  }

  lemma WaitedTells(flow: F.Flow, v: View, x: nat, cmd: Command, call: nat, o: Outcome)
    requires call !in v.outcomes && Answered(o)
    ensures OutcomeIn(Waited(flow, v, x, cmd), call) != Some(o)
  {
    hide WaitingSet;
  }

  lemma {:induction false} ResumedTells(c: Connection, cfg: Config, socket: W.Socket, w: nat, expired: bool, frame: Option<W.Frame>,
                                        call: nat, o: Outcome)
    requires call !in c.outcomes && Answered(o)
    ensures OutcomeIn(Resumed(c, cfg, socket, w, expired, frame), call) != Some(o)
  {
    hide Dispatched;
    if w in c.parked {
      var p := c.parked[w];
      DispatchedTells(c.writes, c.controls, cfg, socket, ViewOf(c).(parked := c.parked - {w}), p.call,
                      Command(p.lane, p.opcode, p.indefinite, frame), true, call, o);
    }
  }

  lemma {:induction false} DrainedTells(c: Connection, call: nat, o: Outcome)
    requires call !in c.outcomes && Answered(o)
    ensures OutcomeIn(AfterGoAway(c), call) != Some(o)
  {
    var v := ViewOf(c).(draining := true);
    var sent := Cleared(v, Ids(c.writes.queue), {}, Unsent, Unsent);
    ClearedAt(v, Ids(c.writes.queue), {}, Unsent, Unsent, call);
    ClearedAt(sent, Indefinite(sent.pending), {}, PossiblySent, PossiblySent, call);
    hide Cleared, Awaits, Ids, Indefinite;
  }

  /** The table says: of the outcomes that depend on the server, a call gets each exactly when its
      event happens. */
  lemma {:induction false} TableTells(c: Connection, cfg: Config, socket: W.Socket, step: Step, call: nat, o: Outcome)
    requires Viewable(c) && call !in c.outcomes && Answered(o)
    ensures OutcomeIn(Tabled(c, cfg, socket, step), call) == Some(o) <==> Tells(c, cfg, step, call, o)
  {
    var v := ViewOf(c);
    hide Viewable, Requested, Resumed, Expired, Received, Cleared, AfterGoAway, Answers, Ids, RejectedIds, W.Flush;
    match step
    case RequestStep(cmd, privileged) => RequestedTells(c, cfg, socket, cmd, privileged, call, o);
    case ResumeStep(w, expired, frame) => ResumedTells(c, cfg, socket, w, expired, frame, call, o);
    case RequestExpiresStep(id, bytes, frames) => ExpiredTells(c, id, bytes, frames, call, o);
    case FrameStep(response) => ReceivedTells(c, cfg, response, call, o);
    case WriteFailsStep(id) => OthersClearedTell(v, {id}, {}, PossiblySent, PossiblySent, call, o);
    case SocketDrainsStep =>
      OthersClearedTell(v, RejectedIds(W.Flush(c.writes, socket, c.closed, c.pending.Keys).1), {}, Unsent, Unsent, call, o);
    case GoAwayStep => DrainedTells(c, call, o);
    case _ => OthersClearedTell(v, v.pending.Keys, Ids(c.writes.queue), Unsent, PossiblySent, call, o);
  }

  lemma {:induction false} SettledIsNotTold(c: Connection, cfg: Config, step: Step, call: nat, o: Outcome)
    requires Viewable(c) && call in c.outcomes
    ensures !Tells(c, cfg, step, call, o)
  {
    hide Steady, Below, Ids;
  }

  /** After a step a call has been told one of these outcomes if it had been before, or if the step is
      its event. */
  lemma {:induction false} StepTells(c: Connection, cfg: Config, socket: W.Socket, step: Step, call: nat, o: Outcome)
    requires Inv(c, cfg) && Answered(o)
    ensures Steady(c) && WaitersParked(c.flow, c.parked)
    ensures OutcomeIn(ViewOf(Apply(c, cfg, socket, step)), call) == Some(o)
            <==> OutcomeIn(ViewOf(c), call) == Some(o) || Tells(c, cfg, step, call, o)
  {
    hide Inv, Apply, Tabled, Tells, Answered, Viewable, Steady, WaitersParked;
    ViewFacts(c, cfg);
    StepView(c, cfg, socket, step);
    if call in c.outcomes {
      StepGrows(c, cfg, socket, step);
      SettledIsNotTold(c, cfg, step, call, o);
    } else {
      TableTells(c, cfg, socket, step, call, o);
    }
  }

  // ----- Runs -----

  lemma {:induction false} RunOneMore(c: Connection, cfg: Config, socket: W.Socket, steps: seq<Step>, step: Step)
    requires Inv(c, cfg)
    ensures var r := Run(c, cfg, socket, steps);
            Steady(r) && WaitersParked(r.flow, r.parked) && Run(c, cfg, socket, steps + [step]) == Apply(r, cfg, socket, step)
    decreases |steps|
  {
    hide Inv, Apply;
    InvFacts(c, cfg);
    InvFacts(Run(c, cfg, socket, steps), cfg);
    if steps == [] {
      StepKeepsInv(c, cfg, socket, step);
      assert steps + [step] == [step] && [step][1..] == [];
    } else {
      StepKeepsInv(c, cfg, socket, steps[0]);
      assert (steps + [step])[1..] == steps[1..] + [step];
      RunOneMore(Apply(c, cfg, socket, steps[0]), cfg, socket, steps[1..], step);
    }
  }

  /** The i-th step of the run is the one that tells this call `o`. */
  ghost predicate ToldAt(c: Connection, cfg: Config, socket: W.Socket, steps: seq<Step>, i: nat, call: nat, o: Outcome)
    requires Inv(c, cfg)
  {
    i < |steps| && Tells(Run(c, cfg, socket, steps[..i]), cfg, steps[i], call, o)
  }

  /** Over every run: a call's promise is resolved exactly when a whole, successful response for it
      arrived in time, with the opcode and lane of its request and within the size limit; it is
      rejected with the server's error exactly when such a response was an error; and it is told that
      it timed out, possibly sent, exactly when its timer fired with its frame at the socket. */
  lemma {:induction false} OutcomesHaveEvents(c: Connection, cfg: Config, socket: W.Socket, steps: seq<Step>, call: nat, o: Outcome)
    requires Fresh(c) && Answered(o)
    ensures Inv(c, cfg)
    ensures var r := Run(c, cfg, socket, steps);
            call in r.outcomes && r.outcomes[call] == o <==> exists i :: ToldAt(c, cfg, socket, steps, i, call, o)
    decreases |steps|
  {
    hide Fresh, Inv, Apply, Run, Answered, Tells;
    FreshIsValid(c, cfg);
    if steps == [] {
      NothingTold(c, cfg, socket, call);
    } else {
      var front, last := steps[..|steps| - 1], steps[|steps| - 1];
      assert steps == front + [last];
      OutcomesHaveEvents(c, cfg, socket, front, call, o);
      RunOneMore(c, cfg, socket, front, last);
      StepTells(Run(c, cfg, socket, front), cfg, socket, last, call, o);
      ToldOnwards(c, cfg, socket, front, last, call, o);
    }
  }

  lemma NothingTold(c: Connection, cfg: Config, socket: W.Socket, call: nat)
    requires Fresh(c) && Inv(c, cfg)
    ensures call !in Run(c, cfg, socket, []).outcomes
  {
  }

  lemma {:induction false} ToldOnwards(c: Connection, cfg: Config, socket: W.Socket, front: seq<Step>, last: Step, call: nat, o: Outcome)
    requires Inv(c, cfg)
    ensures (exists i :: ToldAt(c, cfg, socket, front + [last], i, call, o))
            <==> (exists i :: ToldAt(c, cfg, socket, front, i, call, o)) || Tells(Run(c, cfg, socket, front), cfg, last, call, o)
  {
    hide Inv, Run, Tells;
    var steps := front + [last];
    forall i: nat
      ensures ToldAt(c, cfg, socket, steps, i, call, o)
              <==> ToldAt(c, cfg, socket, front, i, call, o)
                   || (i == |front| && Tells(Run(c, cfg, socket, front), cfg, last, call, o))
    {
      if i < |front| {
        assert steps[..i] == front[..i];
      } else if i == |front| {
        assert steps[..i] == front;
      }
    }
    if Tells(Run(c, cfg, socket, front), cfg, last, call, o) { assert ToldAt(c, cfg, socket, steps, |front|, call, o); }
  }
}
