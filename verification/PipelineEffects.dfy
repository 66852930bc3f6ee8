/** What a pipeline does to the store once each of its submissions has been carried out: frames and
    ordered submissions in their own order, the others by the dependency executor. */
module PipelineEffects {
  import opened Wrappers
  import OrderingPlan
  import opened BatchSchedules
  import opened DependencyExecutor
  import opened PipelineSplitting

  /** lo, lo + 1, ..., hi - 1. */
  function Range(lo: nat, hi: nat): (r: seq<nat>)
    requires lo <= hi
    ensures |r| == hi - lo && forall a | 0 <= a < |r| :: r[a] == lo + a
  {
    seq(hi - lo, a requires 0 <= a < hi - lo => lo + a)
  }

  function Shifted(order: seq<nat>, lo: nat): (r: seq<nat>)
    ensures |r| == |order| && forall a | 0 <= a < |r| :: r[a] == lo + order[a]
  {
    seq(|order|, a requires 0 <= a < |order| => lo + order[a])
  }

  /** The commands took effect in this order during a finished run of the dependency executor over
      the rows of the submission. */
  ghost predicate RanAs(sub: Submission, limit: nat, run: seq<Exec>, order: seq<nat>)
    requires sub.OneByOne? && sub.dependencies.Some?
  {
    && sub.lo <= sub.hi && IsRun(sub.dependencies.value, limit, sub.hi - sub.lo, run)
    && Finished(run[|run| - 1]) && order == Shifted(run[|run| - 1].effects, sub.lo)
  }

  /** The commands of a submission took effect in this order. Without rows and without a promise
      of order, any order is possible. */
  ghost predicate CarriedOut(sub: Submission, order: seq<nat>) {
    && sub.lo <= sub.hi
    && match sub
       case Together(lo, hi) => order == Range(lo, hi)
       case OneByOne(lo, hi, ordered, dependencies) =>
         if ordered then order == Range(lo, hi)
         else if dependencies.Some? then exists limit, run :: RanAs(sub, limit, run, order)
         else exists local :: IsPermutation(local, hi - lo) && order == Shifted(local, lo)
  }

  lemma {:induction false} RangeHas(lo: nat, hi: nat, i: nat)
    requires lo <= hi
    ensures i in Range(lo, hi) <==> lo <= i < hi
  {
    if lo <= i < hi { assert Range(lo, hi)[i - lo] == i; }
  }

  lemma {:induction false} ShiftedHas(order: seq<nat>, lo: nat, i: nat)
    ensures lo + i in Shifted(order, lo) <==> i in order
  {
    if i in order {
      var a :| 0 <= a < |order| && order[a] == i;
      assert Shifted(order, lo)[a] == lo + i;
    }
  }

  lemma {:induction false} RangeMayRun(sub: Submission)
    requires sub.lo <= sub.hi && (sub.OneByOne? ==> sub.ordered)
    ensures MayRunInOrder(sub, Range(sub.lo, sub.hi))
  {
    forall i: nat | sub.lo <= i < sub.hi
      ensures i in Range(sub.lo, sub.hi)
    {
      RangeHas(sub.lo, sub.hi, i);
    }
  }

  lemma {:induction false} ShiftedCovers(sub: Submission, local: seq<nat>)
    requires sub.lo <= sub.hi && IsPermutation(local, sub.hi - sub.lo)
    ensures var order := Shifted(local, sub.lo);
            && Distinct(order) && (forall a | 0 <= a < |order| :: sub.lo <= order[a] < sub.hi)
            && (forall i: nat | sub.lo <= i < sub.hi :: i in order)
  {
    forall i: nat | sub.lo <= i < sub.hi
      ensures i in Shifted(local, sub.lo)
    {
      ShiftedHas(local, sub.lo, i - sub.lo);
    }
  }

  /** A finished run has taken every command exactly once, and its prerequisites before it. */
  lemma {:induction false} RunIsPermutation(deps: seq<seq<int>>, limit: nat, n: nat, run: seq<Exec>)
    requires IsRun(deps, limit, n, run) && Finished(run[|run| - 1])
    ensures IsPermutation(run[|run| - 1].effects, n) && PrerequisitesFirst(deps, run[|run| - 1].effects)
  {
    RunKeepsInv(deps, limit, n, run, |run| - 1);
  }

  lemma {:induction false} ShiftedKeepsRows(sub: Submission, local: seq<nat>, a: nat, d: nat)
    requires sub.OneByOne? && sub.dependencies.Some? && PrerequisitesFirst(sub.dependencies.value, local)
    requires a < |local| && Lists(sub, sub.lo + local[a], d)
    ensures d in Shifted(local, sub.lo)[..a]
  {
    var e := d - sub.lo;
    assert e in Prerequisites(sub.dependencies.value, local[a]);
    var b :| 0 <= b < a && local[..a][b] == e;
    assert Shifted(local, sub.lo)[..a][b] == d;
  }

  lemma {:induction false} RanMayRun(sub: Submission, limit: nat, run: seq<Exec>, order: seq<nat>)
    requires sub.OneByOne? && !sub.ordered && sub.dependencies.Some? && RanAs(sub, limit, run, order)
    ensures MayRunInOrder(sub, order)
  {
    var local := run[|run| - 1].effects;
    RunIsPermutation(sub.dependencies.value, limit, sub.hi - sub.lo, run);
    hide IsRun, Finished, PrerequisitesFirst;
    ShiftedCovers(sub, local);
    forall a, d: nat | 0 <= a < |order| && Lists(sub, order[a], d)
      ensures d in order[..a]
    {
      ShiftedKeepsRows(sub, local, a, d);
    }
  }

  /** However a submission was carried out, its commands took effect in an order it allows. */
  lemma {:induction false} CarriedOutMayRun(sub: Submission, order: seq<nat>)
    requires CarriedOut(sub, order)
    ensures MayRunInOrder(sub, order)
  {
    hide RanAs;
    if sub.Together? || sub.ordered {
      RangeMayRun(sub);
    } else if sub.dependencies.Some? {
      var limit, run :| RanAs(sub, limit, run, order);
      RanMayRun(sub, limit, run, order);
    } else {
      var local :| IsPermutation(local, sub.hi - sub.lo) && order == Shifted(local, sub.lo);
      ShiftedCovers(sub, local);
    }
  }

  ghost predicate AllCarriedOut(trace: seq<Submission>, orders: seq<seq<nat>>) {
    |trace| == |orders| && forall s | 0 <= s < |trace| :: CarriedOut(trace[s], orders[s])
  }

  /** A pipeline whose frames are all answered takes every command exactly once; with rows, each
      after the commands its row lists, and in its own order when that is asked for. */
  lemma {:induction false} PipelineKeepsRows<V>(host: Host<V>, needsOrder: nat -> bool, n: nat, max: nat, options: Options,
                                                deps: seq<seq<int>>, orders: seq<seq<nat>>)
    requires options.ordered || options.dependencies == Some(deps)
    requires var e := ExecutePipeline(host, needsOrder, n, max, options);
             Answered(host, e.trace) && AllCarriedOut(e.trace, orders)
    ensures IsPermutation(Flatten(orders), n) && PrerequisitesFirst(deps, Flatten(orders))
  {
    var e := ExecutePipeline(host, needsOrder, n, max, options);
    PipelineDelivers(host, needsOrder, n, max, options);
    PipelineRestricts(host, needsOrder, n, max, options, deps);
    hide ExecutePipeline, CarriedOut, MayRunInOrder, Answered, Covers, TraceRestricts, PrerequisitesFirst;
    forall s | 0 <= s < |e.trace|
      ensures MayRunInOrder(e.trace[s], orders[s])
    {
      CarriedOutMayRun(e.trace[s], orders[s]);
    }
    SubmissionsKeepDependencies(e.trace, orders, deps, n);
  }

  /** A planned batch whose frames are all answered, cut up in any way, its submissions carried out
      in frames, in order, or by any interleaving of the dependency executor with any number of
      slots, gives every result and the store of running the batch in order. */
  lemma {:induction false} ExecutedPipelineIsSequential<V, W, R>(host: Host<V>, needsOrder: nat -> bool, max: nat, options: Options,
                                                                 cmds: seq<Command<W, R>>, plan: OrderingPlan.Plan,
                                                                 orders: seq<seq<nat>>, store: map<OrderingPlan.Key, W>)
    requires OrderingPlan.IsPlan(AccessesOf(cmds), plan)
    requires options.dependencies == Some(AsIntegers(plan.dependencies))
    requires var e := ExecutePipeline(host, needsOrder, |cmds|, max, options);
             Answered(host, e.trace) && AllCarriedOut(e.trace, orders)
    ensures IsPermutation(Flatten(orders), |cmds|)
    ensures RunInOrder(cmds, Flatten(orders), store) == RunInOrder(cmds, Sequential(|cmds|), store)
  {
    PipelineKeepsRows(host, needsOrder, |cmds|, max, options, AsIntegers(plan.dependencies), orders);
    EffectsAreSequential(cmds, plan, Flatten(orders), store);
  }

  // ----- Commands that must not move -----

  lemma {:induction false} CarriedOutLength(sub: Submission, order: seq<nat>)
    requires CarriedOut(sub, order)
    ensures |order| == sub.hi - sub.lo
  {
    if sub.OneByOne? && !sub.ordered {
      if sub.dependencies.Some? {
        var limit: nat, run: seq<Exec> :| RanAs(sub, limit, run, order);
        RunIsPermutation(sub.dependencies.value, limit, sub.hi - sub.lo, run);
        hide IsRun, Finished;
        PermutationLength(run[|run| - 1].effects, sub.hi - sub.lo);
      } else {
        var local :| IsPermutation(local, sub.hi - sub.lo) && order == Shifted(local, sub.lo);
        PermutationLength(local, sub.hi - sub.lo);
      }
    }
  }

  /** A single command, and several of which one needs the order, take effect in their own order. */
  lemma {:induction false} KeptInOrder(sub: Submission, order: seq<nat>, needsOrder: nat -> bool, max: nat, ordered: bool)
    requires CarriedOut(sub, order) && SentAsAllowed(sub, needsOrder, max, ordered)
    requires ordered || NeedsOrderIn(needsOrder, sub.lo, sub.hi)
    ensures order == Range(sub.lo, sub.hi)
  {
    CarriedOutLength(sub, order);
    if sub.hi - sub.lo <= 1 {
      CarriedOutMayRun(sub, order);
      hide CarriedOut;
      assert forall a | 0 <= a < |order| :: order[a] == sub.lo + a;
    }
  }

  /** Each submission occupies its own stretch of the order of effects. */
  lemma {:induction false} StretchOf(trace: seq<Submission>, orders: seq<seq<nat>>, n: nat, s: nat)
    requires Covers(trace, 0, n) && AllCarriedOut(trace, orders) && s < |trace|
    ensures |Flatten(orders)| == n && trace[s].lo <= trace[s].hi <= n
    ensures Flatten(orders)[trace[s].lo..trace[s].hi] == orders[s]
    decreases |trace|
  {
    hide CarriedOut, Covers;
    var last := |trace| - 1;
    CoversInit(trace, 0, n);
    CarriedOutLength(trace[last], orders[last]);
    if last == 0 {
      NoSubmissions(trace[..last], trace[last].lo);
      assert orders[..last] == [] && orders[last] == Flatten(orders);
    } else {
      StretchOf(trace[..last], orders[..last], trace[last].lo, if s < last then s else 0);
    }
    if s < last {
      PartOfFront(Flatten(orders[..last]), orders[last], trace[s].lo, trace[s].hi);
    } else {
      WholeOfLast(Flatten(orders[..last]), orders[last]);
    }
  }

  lemma NoSubmissions(trace: seq<Submission>, hi: nat)
    requires trace == [] && Covers(trace, 0, hi)
    ensures hi == 0
  {
  }

  lemma PartOfFront(front: seq<nat>, last: seq<nat>, lo: nat, hi: nat)
    requires lo <= hi <= |front|
    ensures (front + last)[lo..hi] == front[lo..hi]
  {
  }

  lemma WholeOfLast(front: seq<nat>, last: seq<nat>)
    ensures (front + last)[|front|..|front| + |last|] == last
  {
  }

  /** A state-changing control command stays where it is: in a pipeline whose frames are all
      answered, everything before it takes effect before it and everything after it after it; and if
      order is asked for, that is so for every command. */
  lemma {:induction false} ControlCommandsStay<V>(host: Host<V>, needsOrder: nat -> bool, n: nat, max: nat, options: Options,
                                                  orders: seq<seq<nat>>, i: nat)
    requires i < n && (options.ordered || needsOrder(i))
    requires var e := ExecutePipeline(host, needsOrder, n, max, options);
             Answered(host, e.trace) && AllCarriedOut(e.trace, orders)
    ensures |Flatten(orders)| == n && Flatten(orders)[i] == i
  {
    var e := ExecutePipeline(host, needsOrder, n, max, options);
    PipelineDelivers(host, needsOrder, n, max, options);
    PipelineAsAllowed(host, needsOrder, n, max, options);
    hide ExecutePipeline, CarriedOut, Answered, SentAsAllowed;
    var sub := HolderOf(e.trace, 0, n, i);
    var s :| 0 <= s < |e.trace| && e.trace[s] == sub;
    StretchOf(e.trace, orders, n, s);
    hide Covers;
    assert NeedsOrderIn(needsOrder, sub.lo, sub.hi) || options.ordered;
    KeptInOrder(sub, orders[s], needsOrder, max, options.ordered);
    assert Flatten(orders)[i] == Flatten(orders)[sub.lo..sub.hi][i - sub.lo];
  }
}
