/** Individual execution of a pipeline with dependency lists: each task waits for the earlier
    tasks it lists, then for a slot, and then runs. One step is one synchronous stretch. */
module DependencyExecutor {
  import opened SlotPool
  import OrderingPlan
  import opened BatchSchedules

  /** Blocked on dependencies; waiting for a slot; holding one, before and after the command
      has taken effect; settled. */
  datatype Stage = Blocked | Waiting | Holding | Applied | Settled

  /** `effects` is the order in which commands took effect; `queued` and `handedOver` are the
      tasks that ever waited for a slot and those that got one from the queue. */
  datatype Exec = Exec(stages: seq<Stage>, pool: Pool, effects: seq<nat>, queued: seq<nat>, handedOver: seq<nat>)

  /** The dependencies that count: positions of earlier tasks. All others are ignored. */
  function Prerequisites(deps: seq<seq<int>>, i: nat): (p: set<nat>)
    ensures forall d | d in p :: d < i
  {
    if i < |deps| then set d: nat | d in deps[i] && d < i else {}
  }

  function Initial(n: nat): Exec {
    Exec(seq(n, _ => Blocked), Pool(0, []), [], [], [])
  }

  predicate AllSettled(stages: seq<Stage>, tasks: set<nat>) {
    forall d | d in tasks :: d < |stages| && stages[d] == Settled
  }

  predicate Start(deps: seq<seq<int>>, limit: nat, s: Exec, s': Exec, i: nat) {
    && i < |s.stages| && s.stages[i] == Blocked
    && AllSettled(s.stages, Prerequisites(deps, i))
    && s' == (if s.pool.active >= limit
              then s.(stages := s.stages[i := Waiting], pool := s.pool.Enter(limit, i), queued := s.queued + [i])
              else s.(stages := s.stages[i := Holding], pool := s.pool.Enter(limit, i)))
  }

  predicate Apply(s: Exec, s': Exec, i: nat) {
    && i < |s.stages| && s.stages[i] == Holding
    && s' == s.(stages := s.stages[i := Applied], effects := s.effects + [i])
  }

  predicate Settle(s: Exec, s': Exec, i: nat) {
    && i < |s.stages| && s.stages[i] == Applied && s.pool.active > 0
    && (s.pool.waiting == [] ==>
          s' == s.(stages := s.stages[i := Settled], pool := s.pool.Leave()))
    && (s.pool.waiting != [] ==>
          && s.pool.waiting[0] < |s.stages|
          && s' == s.(stages := s.stages[i := Settled][s.pool.waiting[0] := Holding], pool := s.pool.Leave(),
                      handedOver := s.handedOver + [s.pool.waiting[0]]))
  }

  predicate StepBy(deps: seq<seq<int>>, limit: nat, s: Exec, s': Exec, i: nat) {
    Start(deps, limit, s, s', i) || Apply(s, s', i) || Settle(s, s', i)
  }

  ghost predicate Step(deps: seq<seq<int>>, limit: nat, s: Exec, s': Exec) {
    exists i: nat :: StepBy(deps, limit, s, s', i)
  }

  ghost predicate CanStep(deps: seq<seq<int>>, limit: nat, s: Exec) {
    exists s' :: Step(deps, limit, s, s')
  }

  predicate Finished(s: Exec) {
    forall i | 0 <= i < |s.stages| :: s.stages[i] == Settled
  }

  /** A run of the executor over n tasks. */
  ghost predicate IsRun(deps: seq<seq<int>>, limit: nat, n: nat, run: seq<Exec>) {
    && |run| > 0 && run[0] == Initial(n)
    && forall t | 0 <= t < |run| - 1 :: Step(deps, limit, run[t], run[t + 1])
  }

  // ----- The invariant of every run -----

  predicate HoldsSlot(stage: Stage) {
    stage == Holding || stage == Applied
  }

  function SlotsHeld(stages: seq<Stage>): nat {
    if stages == [] then 0
    else SlotsHeld(stages[..|stages| - 1]) + (if HoldsSlot(stages[|stages| - 1]) then 1 else 0)
  }

  ghost predicate Inv(deps: seq<seq<int>>, limit: nat, s: Exec) {
    && s.pool.Valid(limit)
    && s.pool.active == SlotsHeld(s.stages)
    && QueueMatches(s)
    && EffectsMatch(s)
    && StartedAfterPrerequisites(deps, s.stages)
    && PrerequisitesFirst(deps, s.effects)
    && s.queued == s.handedOver + s.pool.waiting
  }

  predicate StartedAfterPrerequisites(deps: seq<seq<int>>, stages: seq<Stage>) {
    forall i: nat | i < |stages| && stages[i] != Blocked :: AllSettled(stages, Prerequisites(deps, i))
  }

  predicate QueueMatches(s: Exec) {
    && Distinct(s.pool.waiting)
    && InRange(s.pool.waiting, |s.stages|)
    && forall i: nat | i < |s.stages| :: i in s.pool.waiting <==> s.stages[i] == Waiting
  }

  predicate EffectsMatch(s: Exec) {
    && Distinct(s.effects)
    && InRange(s.effects, |s.stages|)
    && forall i: nat | i < |s.stages| :: i in s.effects <==> s.stages[i] == Applied || s.stages[i] == Settled
  }

  predicate PrerequisitesFirst(deps: seq<seq<int>>, effects: seq<nat>) {
    forall a | 0 <= a < |effects| :: forall d | d in Prerequisites(deps, effects[a]) :: d in effects[..a]
  }

  lemma {:induction false} SlotsHeldUpdate(stages: seq<Stage>, i: nat, stage: Stage)
    requires i < |stages|
    ensures SlotsHeld(stages[i := stage])
            == SlotsHeld(stages) - (if HoldsSlot(stages[i]) then 1 else 0) + (if HoldsSlot(stage) then 1 else 0)
  {
    var last := |stages| - 1;
    if i == last {
      assert stages[i := stage][..last] == stages[..last];
    } else {
      SlotsHeldUpdate(stages[..last], i, stage);
      assert stages[i := stage][..last] == stages[..last][i := stage];
    }
  }

  lemma {:induction false} SomeoneHoldsSlot(stages: seq<Stage>) returns (i: nat)
    requires SlotsHeld(stages) > 0
    ensures i < |stages| && HoldsSlot(stages[i])
  {
    i := |stages| - 1;
    if !HoldsSlot(stages[i]) { i := SomeoneHoldsSlot(stages[..i]); }
  }

  lemma {:induction false} NobodyHoldsSlot(n: nat)
    ensures SlotsHeld(seq(n, _ => Blocked)) == 0
  {
    var stages := seq(n, _ => Blocked);
    if SlotsHeld(stages) > 0 { var i := SomeoneHoldsSlot(stages); }
  }

  lemma {:induction false} InitialInv(deps: seq<seq<int>>, limit: nat, n: nat)
    ensures Inv(deps, limit, Initial(n))
  {
    NobodyHoldsSlot(n);
  }

  lemma {:induction false} StartKeepsInv(deps: seq<seq<int>>, limit: nat, s: Exec, s': Exec, i: nat)
    requires Inv(deps, limit, s) && Start(deps, limit, s, s', i)
    ensures Inv(deps, limit, s')
  {
    hide QueueMatches, EffectsMatch, StartedAfterPrerequisites, PrerequisitesFirst, AllSettled;
    SlotsHeldUpdate(s.stages, i, s'.stages[i]);
    AdvanceKeepsStarted(deps, s.stages, i, s'.stages[i]);
    StartKeepsQueue(deps, limit, s, s', i);
    StartKeepsEffects(deps, limit, s, s', i);
  }

  lemma StartKeepsEffects(deps: seq<seq<int>>, limit: nat, s: Exec, s': Exec, i: nat)
    requires EffectsMatch(s) && Start(deps, limit, s, s', i)
    ensures EffectsMatch(s')
  {
    hide AllSettled;
  }

  lemma {:induction false} StartKeepsQueue(deps: seq<seq<int>>, limit: nat, s: Exec, s': Exec, i: nat)
    requires QueueMatches(s) && Start(deps, limit, s, s', i)
    ensures QueueMatches(s')
  {
    hide AllSettled;
    var q := s.pool.waiting;
    assert forall j: nat :: j in q + [i] <==> j in q || j == i;
  }

  /** A task that may start, or goes on, does not change what the others waited for. */
  lemma {:induction false} AdvanceKeepsStarted(deps: seq<seq<int>>, stages: seq<Stage>, i: nat, stage: Stage)
    requires StartedAfterPrerequisites(deps, stages) && i < |stages| && stages[i] != Settled
    requires AllSettled(stages, Prerequisites(deps, i))
    ensures StartedAfterPrerequisites(deps, stages[i := stage])
  {
    forall j: nat | j < |stages| && stages[i := stage][j] != Blocked
      ensures AllSettled(stages[i := stage], Prerequisites(deps, j))
    {
      assert AllSettled(stages, Prerequisites(deps, j));
    }
  }

  lemma {:induction false} ApplyKeepsInv(deps: seq<seq<int>>, limit: nat, s: Exec, s': Exec, i: nat)
    requires Inv(deps, limit, s) && Apply(s, s', i)
    ensures Inv(deps, limit, s')
  {
    hide EffectsMatch, PrerequisitesFirst, AllSettled;
    SlotsHeldUpdate(s.stages, i, Applied);
    assert AllSettled(s.stages, Prerequisites(deps, i));
    AdvanceKeepsStarted(deps, s.stages, i, Applied);
    ApplyKeepsEffects(deps, s, s', i);
  }

  /** The prerequisites of a command that takes effect have settled, so they took effect before. */
  lemma {:induction false} ApplyKeepsEffects(deps: seq<seq<int>>, s: Exec, s': Exec, i: nat)
    requires EffectsMatch(s) && PrerequisitesFirst(deps, s.effects) && Apply(s, s', i)
    requires AllSettled(s.stages, Prerequisites(deps, i))
    ensures EffectsMatch(s') && PrerequisitesFirst(deps, s'.effects)
  {
    assert forall j: nat :: j in s'.effects <==> j in s.effects || j == i;
    forall a | 0 <= a < |s'.effects|
      ensures forall d | d in Prerequisites(deps, s'.effects[a]) :: d in s'.effects[..a]
    {
      if a < |s.effects| {
        assert s'.effects[..a] == s.effects[..a];
      } else {
        assert s'.effects[..a] == s.effects;
      }
    }
  }

  lemma {:induction false} SettleKeepsInv(deps: seq<seq<int>>, limit: nat, s: Exec, s': Exec, i: nat)
    requires Inv(deps, limit, s) && Settle(s, s', i)
    ensures Inv(deps, limit, s')
  {
    hide QueueMatches, EffectsMatch, StartedAfterPrerequisites, PrerequisitesFirst, Settle, Pool.Valid;
    SettleKeepsSlots(limit, s, s', i);
    SettleKeepsQueue(s, s', i);
    SettleKeepsStarted(deps, s, s', i);
    SettleKeepsEffects(s, s', i);
    SettleKeepsTurns(s, s', i);
  }

  lemma {:induction false} SettleKeepsQueue(s: Exec, s': Exec, i: nat)
    requires QueueMatches(s) && Settle(s, s', i)
    ensures QueueMatches(s')
  {
    if s.pool.waiting != [] { HandOverKeepsQueue(s, s', i); }
  }

  /** Slots are handed over in the order in which they were asked for. */
  lemma {:induction false} SettleKeepsTurns(s: Exec, s': Exec, i: nat)
    requires Settle(s, s', i)
    ensures s'.effects == s.effects
    ensures s.queued == s.handedOver + s.pool.waiting ==> s'.queued == s'.handedOver + s'.pool.waiting
  {
    if s.pool.waiting != [] { assert s.pool.waiting == [s.pool.waiting[0]] + s.pool.waiting[1..]; }
  }

  lemma {:induction false} SettleKeepsEffects(s: Exec, s': Exec, i: nat)
    requires QueueMatches(s) && EffectsMatch(s) && Settle(s, s', i)
    ensures EffectsMatch(s')
  {
    assert s.pool.waiting != [] ==> s.pool.waiting[0] in s.pool.waiting;
  }

  lemma {:induction false} SettleKeepsSlots(limit: nat, s: Exec, s': Exec, i: nat)
    requires s.pool.Valid(limit) && s.pool.active == SlotsHeld(s.stages)
    requires QueueMatches(s) && Settle(s, s', i)
    ensures s'.pool.Valid(limit) && s'.pool.active == SlotsHeld(s'.stages)
  {
    SlotsHeldUpdate(s.stages, i, Settled);
    if s.pool.waiting != [] {
      var h := s.pool.waiting[0];
      assert h in s.pool.waiting && s.stages[h] == Waiting;
      SlotsHeldUpdate(s.stages[i := Settled], h, Holding);
    }
  }

  lemma {:induction false} SettleKeepsStarted(deps: seq<seq<int>>, s: Exec, s': Exec, i: nat)
    requires QueueMatches(s) && Settle(s, s', i)
    requires StartedAfterPrerequisites(deps, s.stages)
    ensures StartedAfterPrerequisites(deps, s'.stages)
  {
    assert s.pool.waiting != [] ==> s.pool.waiting[0] in s.pool.waiting;
    forall j: nat | j < |s'.stages| && s'.stages[j] != Blocked
      ensures AllSettled(s'.stages, Prerequisites(deps, j))
    {
      assert AllSettled(s.stages, Prerequisites(deps, j));
    }
  }

  lemma {:induction false} HandOverKeepsQueue(s: Exec, s': Exec, i: nat)
    requires QueueMatches(s) && Settle(s, s', i) && s.pool.waiting != []
    ensures QueueMatches(s')
  {
    var q, h := s.pool.waiting, s.pool.waiting[0];
    assert q == [h] + q[1..];
    forall j: nat | j < |s'.stages|
      ensures j in q[1..] <==> s'.stages[j] == Waiting
    {
      assert j in q <==> j == h || j in q[1..];
    }
  }

  lemma {:induction false} StepKeepsInv(deps: seq<seq<int>>, limit: nat, s: Exec, s': Exec)
    requires Inv(deps, limit, s) && Step(deps, limit, s, s')
    ensures Inv(deps, limit, s')
  {
    var i: nat :| StepBy(deps, limit, s, s', i);
    if Start(deps, limit, s, s', i) { StartKeepsInv(deps, limit, s, s', i); }
    else if Apply(s, s', i) { ApplyKeepsInv(deps, limit, s, s', i); }
    else { SettleKeepsInv(deps, limit, s, s', i); }
  }

  /** Every state of every run keeps the invariant: slots in use equal the tasks holding one and
      never exceed the limit, tasks wait only when all slots are used, slots are handed over
      first come first served, and no command takes effect before its dependencies settled. */
  lemma {:induction false} RunKeepsInv(deps: seq<seq<int>>, limit: nat, n: nat, run: seq<Exec>, t: nat)
    requires IsRun(deps, limit, n, run) && t < |run|
    ensures Inv(deps, limit, run[t]) && |run[t].stages| == n
  {
    if t == 0 {
      InitialInv(deps, limit, n);
    } else {
      RunKeepsInv(deps, limit, n, run, t - 1);
      StepKeepsInv(deps, limit, run[t - 1], run[t]);
    }
  }

  // ----- No deadlock, and an end -----

  /** With at least one slot, whatever the dependency lists say (cycles, self references,
      positions out of range), an unfinished execution can always take a step. */
  lemma {:induction false} NeverDeadlocks(deps: seq<seq<int>>, limit: nat, s: Exec, u: nat)
    requires Inv(deps, limit, s) && limit > 0
    requires u < |s.stages| && s.stages[u] != Settled
    ensures CanStep(deps, limit, s)
  {
    var i := FirstUnsettled(s.stages, u);
    if s.stages[i] == Blocked {
      var s' := if s.pool.active >= limit
        then s.(stages := s.stages[i := Waiting], pool := s.pool.Enter(limit, i), queued := s.queued + [i])
        else s.(stages := s.stages[i := Holding], pool := s.pool.Enter(limit, i));
      assert StepBy(deps, limit, s, s', i);
      assert Step(deps, limit, s, s');
    } else {
      var h := i;
      if s.stages[i] == Waiting {
        assert i in s.pool.waiting;
        h := SomeoneHoldsSlot(s.stages);
      }
      SlotHolderSteps(deps, limit, s, h);
    }
  }

  lemma {:induction false} FirstUnsettled(stages: seq<Stage>, u: nat) returns (i: nat)
    requires u < |stages| && stages[u] != Settled
    ensures i <= u && stages[i] != Settled && forall j | 0 <= j < i :: stages[j] == Settled
  {
    i := 0;
    while stages[i] == Settled
      invariant i <= u && forall j | 0 <= j < i :: stages[j] == Settled
      decreases u - i
    {
      i := i + 1;
    }
  }

  lemma {:induction false} SlotHolderSteps(deps: seq<seq<int>>, limit: nat, s: Exec, h: nat)
    requires Inv(deps, limit, s) && h < |s.stages| && HoldsSlot(s.stages[h])
    ensures CanStep(deps, limit, s)
  {
    if s.stages[h] == Holding {
      var s' := s.(stages := s.stages[h := Applied], effects := s.effects + [h]);
      assert StepBy(deps, limit, s, s', h);
      assert Step(deps, limit, s, s');
    } else {
      SlotsHeldUpdate(s.stages, h, Settled);
      var s' := if s.pool.waiting == []
        then s.(stages := s.stages[h := Settled], pool := s.pool.Leave())
        else s.(stages := s.stages[h := Settled][s.pool.waiting[0] := Holding], pool := s.pool.Leave(),
                handedOver := s.handedOver + [s.pool.waiting[0]]);
      assert StepBy(deps, limit, s, s', h);
      assert Step(deps, limit, s, s');
    }
  }

  function Remaining(stage: Stage): nat {
    match stage
    case Blocked => 4
    case Waiting => 3
    case Holding => 2
    case Applied => 1
    case Settled => 0
  }

  function Work(stages: seq<Stage>): nat {
    if stages == [] then 0 else Work(stages[..|stages| - 1]) + Remaining(stages[|stages| - 1])
  }

  lemma {:induction false} WorkUpdate(stages: seq<Stage>, i: nat, stage: Stage)
    requires i < |stages|
    ensures Work(stages[i := stage]) == Work(stages) - Remaining(stages[i]) + Remaining(stage)
  {
    var last := |stages| - 1;
    if i == last {
      assert stages[i := stage][..last] == stages[..last];
    } else {
      WorkUpdate(stages[..last], i, stage);
      assert stages[i := stage][..last] == stages[..last][i := stage];
    }
  }

  lemma {:induction false} StepsDoWork(deps: seq<seq<int>>, limit: nat, s: Exec, s': Exec)
    requires Inv(deps, limit, s) && Step(deps, limit, s, s')
    ensures Work(s'.stages) < Work(s.stages)
  {
    var i: nat :| StepBy(deps, limit, s, s', i);
    if Settle(s, s', i) {
      WorkUpdate(s.stages, i, Settled);
      if s.pool.waiting != [] {
        var h := s.pool.waiting[0];
        assert h in s.pool.waiting;
        WorkUpdate(s.stages[i := Settled], h, Holding);
      }
    } else {
      WorkUpdate(s.stages, i, s'.stages[i]);
    }
  }

  /** A run of n tasks has at most 4n steps, so it cannot go on for ever. */
  lemma {:induction false} RunsEnd(deps: seq<seq<int>>, limit: nat, n: nat, run: seq<Exec>, t: nat)
    requires IsRun(deps, limit, n, run) && t < |run|
    ensures t + Work(run[t].stages) <= 4 * n
  {
    if t == 0 {
      InitialWork(n);
    } else {
      RunsEnd(deps, limit, n, run, t - 1);
      RunKeepsInv(deps, limit, n, run, t - 1);
      StepsDoWork(deps, limit, run[t - 1], run[t]);
    }
  }

  lemma {:induction false} InitialWork(n: nat)
    ensures Work(Initial(n).stages) == 4 * n
  {
    if n > 0 {
      InitialWork(n - 1);
      assert Initial(n).stages[..n - 1] == Initial(n - 1).stages;
    }
  }

  /** A run that can take no more steps has settled every task. */
  lemma {:induction false} StuckMeansFinished(deps: seq<seq<int>>, limit: nat, n: nat, run: seq<Exec>)
    requires IsRun(deps, limit, n, run) && limit > 0
    requires !CanStep(deps, limit, run[|run| - 1])
    ensures Finished(run[|run| - 1])
  {
    var last := run[|run| - 1];
    RunKeepsInv(deps, limit, n, run, |run| - 1);
    forall i | 0 <= i < |last.stages|
      ensures last.stages[i] == Settled
    {
      if last.stages[i] != Settled { NeverDeadlocks(deps, limit, last, i); }
    }
  }

  // ----- What a finished run computed -----

  function AsIntegers(deps: seq<seq<nat>>): (r: seq<seq<int>>)
    ensures |r| == |deps| && forall i | 0 <= i < |deps| :: r[i] == deps[i]
  {
    seq(|deps|, i requires 0 <= i < |deps| => deps[i])
  }

  /** Running a planned batch command by command, with any number of slots and any
      interleaving, gives the results and the store of running it in order. */
  lemma {:induction false} FinishedRunIsSequential<V, R>(cmds: seq<Command<V, R>>, plan: OrderingPlan.Plan, limit: nat, run: seq<Exec>,
                                      store: map<OrderingPlan.Key, V>)
    requires OrderingPlan.IsPlan(AccessesOf(cmds), plan)
    requires IsRun(AsIntegers(plan.dependencies), limit, |cmds|, run)
    requires Finished(run[|run| - 1])
    ensures IsPermutation(run[|run| - 1].effects, |cmds|)
    ensures RunInOrder(cmds, run[|run| - 1].effects, store) == RunInOrder(cmds, Sequential(|cmds|), store)
  {
    var last := run[|run| - 1];
    RunKeepsInv(AsIntegers(plan.dependencies), limit, |cmds|, run, |run| - 1);
    EffectsAreSequential(cmds, plan, last.effects, store);
  }

  lemma {:induction false} EffectsAreSequential<V, R>(cmds: seq<Command<V, R>>, plan: OrderingPlan.Plan, effects: seq<nat>,
                                   store: map<OrderingPlan.Key, V>)
    requires OrderingPlan.IsPlan(AccessesOf(cmds), plan)
    requires IsPermutation(effects, |cmds|) && PrerequisitesFirst(AsIntegers(plan.dependencies), effects)
    ensures RunInOrder(cmds, effects, store) == RunInOrder(cmds, Sequential(|cmds|), store)
  {
    forall a | 0 <= a < |effects|
      ensures effects[a] < |plan.dependencies|
      ensures forall d | d in plan.dependencies[effects[a]] :: d in effects[..a]
    {
      var i := effects[a];
      forall d | d in plan.dependencies[i]
        ensures d in effects[..a]
      {
        OrderingPlan.ListedDependenciesConflict(AccessesOf(cmds), plan.dependencies, i, d);
        assert d in Prerequisites(AsIntegers(plan.dependencies), i);
      }
    }
    PlannedSchedulesAreSequential(cmds, plan, effects, store);
  }

  // ----- A task waits for nothing else -----

  /** In every state a task that has not begun can start as soon as the earlier positions that it lists have
      settled, and not before; other entries of its list, and all other tasks, do not hold it up. */
  lemma {:induction false} StartsExactly(deps: seq<seq<int>>, limit: nat, s: Exec, i: nat)
    requires i < |s.stages|
    ensures (exists s' :: Start(deps, limit, s, s', i))
            <==> && s.stages[i] == Blocked
                 && (i < |deps| ==> forall k | 0 <= k < |deps[i]| && 0 <= deps[i][k] < i :: s.stages[deps[i][k]] == Settled)
  {
    if s.stages[i] == Blocked && AllSettled(s.stages, Prerequisites(deps, i)) { StartsSomehow(deps, limit, s, i); }
    if i < |deps| && AllSettled(s.stages, Prerequisites(deps, i)) {
      forall k | 0 <= k < |deps[i]| && 0 <= deps[i][k] < i
        ensures s.stages[deps[i][k]] == Settled
      {
        assert deps[i][k] in Prerequisites(deps, i);
      }
    }
  }

  lemma {:induction false} StartsSomehow(deps: seq<seq<int>>, limit: nat, s: Exec, i: nat)
    requires i < |s.stages| && s.stages[i] == Blocked && AllSettled(s.stages, Prerequisites(deps, i))
    ensures exists s' :: Start(deps, limit, s, s', i)
  {
    var s' := if s.pool.active >= limit
              then s.(stages := s.stages[i := Waiting], pool := s.pool.Enter(limit, i), queued := s.queued + [i])
              else s.(stages := s.stages[i := Holding], pool := s.pool.Enter(limit, i));
    assert Start(deps, limit, s, s', i);
  }

  /** A task that starts runs at once unless as many tasks as allowed are running; and one that waits for a
      slot gets it when its turn comes, oldest first. */
  lemma {:induction false} RunsAtOnce(deps: seq<seq<int>>, limit: nat, s: Exec, s': Exec, i: nat)
    requires Inv(deps, limit, s) && Start(deps, limit, s, s', i)
    ensures s'.stages[i] == Holding <==> SlotsHeld(s.stages) < limit
    ensures s'.stages[i] == Waiting <==> SlotsHeld(s.stages) == limit
    ensures s'.stages[i] == Waiting ==> s'.pool.waiting == s.pool.waiting + [i]
    ensures forall j | 0 <= j < |s.stages| && j != i :: s'.stages[j] == s.stages[j]
  {
    hide QueueMatches, EffectsMatch, StartedAfterPrerequisites, PrerequisitesFirst, AllSettled;
  }
}
