/** What the auto-batcher means as a whole: flushing, waiting, sending and settling batches, with the
    commands of the batches in flight taking effect in between. In every state of every run the
    commands have had the effect of being carried out one by one in the order of submission. */
module BatchedExecution {
  import opened Wrappers
  import opened OrderingPlan
  import C = CrossBatchOrdering
  import opened BatchSchedules
  import D = DependencyExecutor
  import P = PipelineSplitting
  import E = PipelineEffects

  /** A submitted command: its batch and its position there. */
  datatype Place = Place(batch: nat, position: nat)

  /** The auto-batcher, the commands that are over, and those that took effect, in that order. A
      command that was never carried out (a rejected write, say) is over without an effect. */
  datatype World = World(client: C.State, finished: set<Place>, effects: seq<Place>)

  const INITIAL := World(C.INITIAL, {}, [])

  predicate IsPlace(batches: seq<C.Batch>, g: Place) {
    g.batch < |batches| && g.position < |batches[g.batch].items|
  }

  /** Before command p of a batch: what the plan lists for it, or every earlier command when the
      batch has no plan. */
  ghost predicate ComesFirst(b: C.Batch, p: nat, d: nat) {
    d < p && (b.accesses.Some? ==> DependsDirectly(MergedBatch(b.items), p, d))
  }

  /** A command of a batch in flight can finish once what comes first in its batch has. */
  ghost predicate MayFinish(w: World, g: Place) {
    && IsPlace(w.client.batches, g) && g !in w.finished
    && g.batch in w.client.sent && g.batch !in w.client.settled
    && FirstFinished(w.client.batches, w.finished, g)
  }

  ghost predicate FirstFinished(batches: seq<C.Batch>, finished: set<Place>, g: Place)
    requires IsPlace(batches, g)
  {
    forall d: nat | ComesFirst(batches[g.batch], g.position, d) :: Place(g.batch, d) in finished
  }

  predicate FinishedWith(w: World, w': World, g: Place, applied: bool) {
    w' == w.(finished := w.finished + {g}, effects := if applied then w.effects + [g] else w.effects)
  }

  ghost predicate FinishStep(w: World, w': World) {
    exists g, applied :: MayFinish(w, g) && FinishedWith(w, w', g, applied)
  }

  ghost predicate ClientStep(w: World, w': World) {
    C.Step(w.client, w'.client) && w' == w.(client := w'.client)
  }

  ghost predicate Step(w: World, w': World) {
    ClientStep(w, w') || FinishStep(w, w')
  }

  ghost predicate IsRun(run: seq<World>) {
    && |run| > 0 && run[0] == INITIAL
    && forall t | 0 <= t < |run| - 1 :: Step(run[t], run[t + 1])
  }

  // ----- The pipeline of a batch keeps the rule of its batch -----

  /** What the auto-batcher asks of the pipeline: the rows of the plan, or batch order. */
  function BatchOptions(plan: Option<Plan>): P.Options {
    if plan.Some? then P.Options(Some(D.AsIntegers(plan.value.dependencies)), false, false)
    else P.Options(None, true, false)
  }

  /** The batch as flushed with what the planner found. */
  ghost predicate PlannedAs(b: C.Batch, plan: Option<Plan>) {
    && (plan.Some? <==> Classified(b.items) && ListsSomeKey(b.items))
    && (plan.Some? ==> IsPlan(MergedBatch(b.items), plan.value) && b.accesses == Some(plan.value.accesses))
    && (plan.None? ==> b.accesses.None?)
  }

  function Below(n: nat): (row: seq<int>)
    ensures |row| == n && forall d | 0 <= d < n :: row[d] == d
  {
    seq(n, d requires 0 <= d < n => d)
  }

  function AllEarlier(n: nat): (rows: seq<seq<int>>)
    ensures |rows| == n && forall i | 0 <= i < n :: rows[i] == Below(i)
  {
    seq(n, i requires 0 <= i < n => Below(i))
  }

  /** However the pipeline of a flushed batch is cut up and carried out: if all its frames are
      answered, every command takes effect once, after all that comes first in the batch. */
  lemma {:induction false} PipelineFollowsPlan<V>(host: P.Host<V>, needsOrder: nat -> bool, max: nat, b: C.Batch, plan: Option<Plan>,
                                                  orders: seq<seq<nat>>)
    requires PlannedAs(b, plan)
    requires var e := P.ExecutePipeline(host, needsOrder, |b.items|, max, BatchOptions(plan));
             P.Answered(host, e.trace) && E.AllCarriedOut(e.trace, orders)
    ensures IsPermutation(P.Flatten(orders), |b.items|)
    ensures forall a, d: nat | 0 <= a < |P.Flatten(orders)| && ComesFirst(b, P.Flatten(orders)[a], d) :: d in P.Flatten(orders)[..a]
  {
    var rows := if plan.Some? then D.AsIntegers(plan.value.dependencies) else AllEarlier(|b.items|);
    E.PipelineKeepsRows(host, needsOrder, |b.items|, max, BatchOptions(plan), rows, orders);
    var order := P.Flatten(orders);
    hide P.ExecutePipeline, P.Answered, E.AllCarriedOut, P.Flatten;
    forall a, d: nat | 0 <= a < |order| && ComesFirst(b, order[a], d)
      ensures d in order[..a]
    {
      RowsListFirst(b, plan, rows, order[a], d);
    }
  }

  lemma {:induction false} RowsListFirst(b: C.Batch, plan: Option<Plan>, rows: seq<seq<int>>, p: nat, d: nat)
    requires PlannedAs(b, plan) && p < |b.items| && ComesFirst(b, p, d)
    requires rows == if plan.Some? then D.AsIntegers(plan.value.dependencies) else AllEarlier(|b.items|)
    ensures d in D.Prerequisites(rows, p)
  {
    if plan.Some? {
      assert IsRow(MergedBatch(b.items), p, plan.value.dependencies[p]);
      assert d in plan.value.dependencies[p];
    } else {
      assert rows[p][d] == d;
    }
  }

  // ----- The invariant -----

  predicate Before(g: Place, h: Place) {
    g.batch < h.batch || (g.batch == h.batch && g.position < h.position)
  }

  function ItemAt(batches: seq<C.Batch>, g: Place): C.Item {
    if IsPlace(batches, g) then batches[g.batch].items[g.position] else Some([])
  }

  ghost predicate Conflicting(batches: seq<C.Batch>, g: Place, h: Place) {
    C.ItemConflict(ItemAt(batches, g), ItemAt(batches, h))
  }

  predicate DistinctPlaces(effects: seq<Place>) {
    forall a, b | 0 <= a < b < |effects| :: effects[a] != effects[b]
  }

  ghost predicate EffectsOrdered(batches: seq<C.Batch>, effects: seq<Place>) {
    forall a, b | 0 <= a < b < |effects| && Conflicting(batches, effects[a], effects[b]) :: Before(effects[a], effects[b])
  }

  /** A finished command belongs to a batch that was sent, after what comes first in it. */
  ghost predicate FinishedOk(batches: seq<C.Batch>, sent: set<nat>, finished: set<Place>) {
    forall g | g in finished :: IsPlace(batches, g) && g.batch in sent && FirstFinished(batches, finished, g)
  }

  ghost predicate Inv(w: World) {
    && C.Inv(w.client)
    && FinishedOk(w.client.batches, w.client.sent, w.finished)
    && (forall g | g in w.effects :: g in w.finished)
    && DistinctPlaces(w.effects)
    && EffectsOrdered(w.client.batches, w.effects)
  }

  /** Within a batch with a plan: when a command is over, so is every earlier one it conflicts with. */
  lemma {:induction false} ConflictsFinished(b: C.Batch, done: set<nat>, p: nat, q: nat, k: Key)
    requires b.accesses.Some? && q in done
    requires forall i, d: nat | i in done && ComesFirst(b, i, d) :: d in done
    requires p < q && ConflictOn(MergedBatch(b.items), p, q, k)
    ensures p in done
    decreases q - p
  {
    var accs := MergedBatch(b.items);
    if NoWriteBetween(accs, p, q, k) {
      assert DependsDirectly(accs, q, p) && ComesFirst(b, q, p);
    } else {
      var m := LastWrite(accs, p, q, k);
      assert DependsDirectly(accs, q, m) && ComesFirst(b, q, m);
      ConflictsFinished(b, done, p, m, k);
    }
  }

  lemma {:induction false} LastWrite(accs: seq<Accesses>, p: nat, q: nat, k: Key) returns (m: nat)
    requires p < q && !NoWriteBetween(accs, p, q, k)
    ensures p < m < q && Writes(accs, m, k) && NoWriteBetween(accs, m, q, k)
    decreases q - p
  {
    m :| p < m < q && Writes(accs, m, k);
    if !NoWriteBetween(accs, m, q, k) { m := LastWrite(accs, m, q, k); }
  }

  /** The same for any batch, in terms of its commands. */
  lemma {:induction false} EarlierInBatchFinished(batches: seq<C.Batch>, sent: set<nat>, finished: set<Place>, g: Place, h: Place)
    requires FinishedOk(batches, sent, finished) && h in finished && IsPlace(batches, g)
    requires g.batch == h.batch && g.position < h.position && Conflicting(batches, g, h)
    requires C.PlannedAccesses(batches[g.batch].items, batches[g.batch].accesses)
    ensures g in finished
  {
    var b := batches[g.batch];
    assert FirstFinished(batches, finished, h);
    if b.accesses.None? {
      assert ComesFirst(b, h.position, g.position);
    } else {
      var done := set i: nat | i < |b.items| && Place(g.batch, i) in finished;
      forall i, d: nat | i in done && ComesFirst(b, i, d)
        ensures d in done
      {
        assert FirstFinished(batches, finished, Place(g.batch, i));
      }
      var k :| C.KeyConflict(Merged(b.items[g.position].value), Merged(b.items[h.position].value), k);
      assert ConflictOn(MergedBatch(b.items), g.position, h.position, k);
      ConflictsFinished(b, done, g.position, h.position, k);
    }
  }

  /** Nothing that conflicts with a command and comes after it is over before the command. */
  lemma {:induction false} FinishedConflictsAreEarlier(w: World, g: Place, h: Place)
    requires Inv(w) && MayFinish(w, g) && h in w.finished && Conflicting(w.client.batches, h, g)
    ensures Before(h, g)
  {
    var s := w.client;
    assert IsPlace(s.batches, h) && h.batch in s.sent;
    ConflictSymmetric(s.batches, h, g);
    assert C.PlannedAccesses(s.batches[g.batch].items, s.batches[g.batch].accesses);
    if g.batch == h.batch && g.position < h.position {
      EarlierInBatchFinished(s.batches, s.sent, w.finished, g, h);
    } else if g.batch < h.batch {
      SettledBeforeConflict(s, g, h);
    }
  }

  lemma {:induction false} ConflictSymmetric(batches: seq<C.Batch>, g: Place, h: Place)
    ensures Conflicting(batches, g, h) <==> Conflicting(batches, h, g)
  {
    var a, b := ItemAt(batches, g), ItemAt(batches, h);
    if a.Some? && b.Some? {
      assert forall k :: C.KeyConflict(Merged(a.value), Merged(b.value), k) <==> C.KeyConflict(Merged(b.value), Merged(a.value), k);
    }
  }

  lemma {:induction false} SettledBeforeConflict(s: C.State, g: Place, h: Place)
    requires C.Inv(s) && IsPlace(s.batches, g) && IsPlace(s.batches, h) && Conflicting(s.batches, g, h)
    requires g.batch < h.batch && h.batch in s.sent
    ensures g.batch in s.settled
  {
    var a, b := s.batches[g.batch], s.batches[h.batch];
    C.ItemsConflictInBatches(s, g.batch, g.position, h.batch, h.position);
    if g.batch !in s.settled { C.SentMeansSettled(s, h.batch, g.batch); }
  }

  // ----- Every step keeps it -----

  lemma {:induction false} ClientGrows(s: C.State, s': C.State)
    requires C.Step(s, s')
    ensures s.batches <= s'.batches && s.sent <= s'.sent
  {
    hide C.Dependencies, C.Captured, C.Dropped, C.UnregisteredObjects, C.Sendable, C.PlannedAccesses;
  }

  lemma {:induction false} ClientStepKeepsInv(w: World, w': World)
    requires Inv(w) && ClientStep(w, w')
    ensures Inv(w')
  {
    C.StepKeepsInv(w.client, w'.client);
    ClientGrows(w.client, w'.client);
    hide C.Step, C.Inv;
    var batches, batches' := w.client.batches, w'.client.batches;
    forall g | g in w.finished
      ensures IsPlace(batches', g) && g.batch in w'.client.sent && FirstFinished(batches', w.finished, g)
    {
      assert FirstFinished(batches, w.finished, g) && batches'[g.batch] == batches[g.batch];
    }
    forall g | g in w.effects
      ensures ItemAt(batches', g) == ItemAt(batches, g)
    {
      assert batches'[g.batch] == batches[g.batch];
    }
  }

  lemma {:induction false} FinishStepKeepsInv(w: World, w': World)
    requires Inv(w) && FinishStep(w, w')
    ensures Inv(w')
  {
    var g, applied :| MayFinish(w, g) && FinishedWith(w, w', g, applied);
    hide C.Inv;
    forall h | h in w'.finished
      ensures IsPlace(w.client.batches, h) && h.batch in w.client.sent && FirstFinished(w.client.batches, w'.finished, h)
    {
      assert FirstFinished(w.client.batches, w.finished, h);
    }
    forall a, b | 0 <= a < b < |w'.effects| && Conflicting(w.client.batches, w'.effects[a], w'.effects[b])
      ensures Before(w'.effects[a], w'.effects[b])
    {
      if b == |w.effects| {
        assert w'.effects[a] == w.effects[a] && w.effects[a] in w.effects;
        FinishedConflictsAreEarlier(w, g, w.effects[a]);
      }
    }
  }

  lemma {:induction false} RunKeepsInv(run: seq<World>, t: nat)
    requires IsRun(run) && t < |run|
    ensures Inv(run[t])
  {
    hide Inv, ClientStep, FinishStep;
    if t == 0 {
      InitialInv();
    } else {
      RunKeepsInv(run, t - 1);
      if ClientStep(run[t - 1], run[t]) {
        ClientStepKeepsInv(run[t - 1], run[t]);
      } else {
        FinishStepKeepsInv(run[t - 1], run[t]);
      }
    }
  }

  lemma {:induction false} InitialInv()
    ensures Inv(INITIAL)
  {
    C.RunKeepsInv([C.INITIAL], 0);
  }

  // ----- Places and positions in the order of submission -----

  function Offset(batches: seq<C.Batch>, j: nat): nat
    requires j <= |batches|
  {
    |C.FlushedItems(batches[..j])|
  }

  /** The position of a command among all submitted ones. */
  function IndexOf(batches: seq<C.Batch>, g: Place): nat {
    if g.batch <= |batches| then Offset(batches, g.batch) + g.position else 0
  }

  function Indexes(batches: seq<C.Batch>, places: seq<Place>): (r: seq<nat>)
    ensures |r| == |places| && forall a | 0 <= a < |r| :: r[a] == IndexOf(batches, places[a])
  {
    seq(|places|, a requires 0 <= a < |places| => IndexOf(batches, places[a]))
  }

  lemma {:induction false} NextOffset(batches: seq<C.Batch>, j: nat)
    requires j < |batches|
    ensures Offset(batches, j + 1) == Offset(batches, j) + |batches[j].items|
  {
    assert batches[..j + 1][..j] == batches[..j];
  }

  lemma {:induction false} OffsetGrows(batches: seq<C.Batch>, i: nat, j: nat)
    requires i <= j <= |batches|
    ensures Offset(batches, i) <= Offset(batches, j)
    decreases j - i
  {
    if i < j {
      NextOffset(batches, i);
      OffsetGrows(batches, i + 1, j);
    }
  }

  /** The submitted command at the position of a place is the command at that place. */
  lemma {:induction false} IndexHolds(batches: seq<C.Batch>, g: Place)
    requires IsPlace(batches, g)
    ensures IndexOf(batches, g) < |C.FlushedItems(batches)| && C.FlushedItems(batches)[IndexOf(batches, g)] == ItemAt(batches, g)
    decreases |batches|
  {
    var last := |batches| - 1;
    if g.batch < last {
      IndexHolds(batches[..last], g);
      assert batches[..last][..g.batch] == batches[..g.batch];
    }
  }

  lemma {:induction false} BeforeIsSmaller(batches: seq<C.Batch>, g: Place, h: Place)
    requires IsPlace(batches, g) && IsPlace(batches, h) && Before(g, h)
    ensures IndexOf(batches, g) < IndexOf(batches, h)
  {
    if g.batch < h.batch {
      NextOffset(batches, g.batch);
      OffsetGrows(batches, g.batch + 1, h.batch);
    }
  }

  /** Every flushed command has its place. */
  lemma {:induction false} PlaceOf(batches: seq<C.Batch>, i: nat) returns (g: Place)
    requires i < |C.FlushedItems(batches)|
    ensures IsPlace(batches, g) && IndexOf(batches, g) == i
    decreases |batches|
  {
    var last := |batches| - 1;
    var before := |C.FlushedItems(batches[..last])|;
    if i < before {
      g := PlaceOf(batches[..last], i);
      assert batches[..last][..g.batch] == batches[..g.batch];
    } else {
      g := Place(last, i - before);
    }
  }

  // ----- What the commands computed -----

  /** These are the submitted commands; what an unclassified one accesses is not known. */
  ghost predicate Describes<V, R>(cmds: seq<Command<V, R>>, items: seq<C.Item>) {
    && |cmds| == |items|
    && forall i | 0 <= i < |items| && items[i].Some? :: cmds[i].accesses == Merged(items[i].value)
  }

  lemma {:induction false} ConflictMeansItems<V, R>(cmds: seq<Command<V, R>>, items: seq<C.Item>, i: nat, j: nat)
    requires Describes(cmds, items) && Conflict(AccessesOf(cmds), i, j)
    ensures i < |items| && j < |items| && C.ItemConflict(items[i], items[j])
  {
    var k :| ConflictOn(AccessesOf(cmds), i, j, k);
    if items[i].Some? && items[j].Some? {
      assert C.KeyConflict(Merged(items[i].value), Merged(items[j].value), k);
    }
  }

  lemma {:induction false} IndexConflict<V, R>(cmds: seq<Command<V, R>>, s: C.State, g: Place, h: Place)
    requires Describes(cmds, C.Submitted(s)) && IsPlace(s.batches, g) && IsPlace(s.batches, h)
    requires Conflict(AccessesOf(cmds), IndexOf(s.batches, g), IndexOf(s.batches, h))
    ensures Conflicting(s.batches, g, h)
  {
    ConflictMeansItems(cmds, C.Submitted(s), IndexOf(s.batches, g), IndexOf(s.batches, h));
    IndexHolds(s.batches, g);
    IndexHolds(s.batches, h);
  }

  lemma {:induction false} EffectsInRange(w: World)
    requires Inv(w)
    ensures InRange(Indexes(w.client.batches, w.effects), |C.Submitted(w.client)|)
    ensures Distinct(Indexes(w.client.batches, w.effects))
  {
    hide C.Inv;
    var batches, order := w.client.batches, Indexes(w.client.batches, w.effects);
    forall a | 0 <= a < |order|
      ensures order[a] < |C.Submitted(w.client)|
    {
      assert w.effects[a] in w.effects;
      IndexHolds(batches, w.effects[a]);
    }
    forall a, b | 0 <= a < b < |order|
      ensures order[a] != order[b]
    {
      assert w.effects[a] in w.effects && w.effects[b] in w.effects;
      if Before(w.effects[a], w.effects[b]) {
        BeforeIsSmaller(batches, w.effects[a], w.effects[b]);
      } else {
        BeforeIsSmaller(batches, w.effects[b], w.effects[a]);
      }
    }
  }

  /** Conflicting commands took effect in the order in which they were submitted. */
  lemma {:induction false} EffectsKeepConflicts<V, R>(w: World, cmds: seq<Command<V, R>>)
    requires Inv(w) && Describes(cmds, C.Submitted(w.client))
    ensures KeepsConflictOrder(AccessesOf(cmds), Indexes(w.client.batches, w.effects))
  {
    hide C.Inv, Conflicting, Before;
    var s, order := w.client, Indexes(w.client.batches, w.effects);
    forall a, b | 0 <= a < b < |order| && Conflict(AccessesOf(cmds), order[b], order[a])
      ensures order[a] < order[b]
    {
      var g, h := w.effects[a], w.effects[b];
      assert g in w.effects && h in w.effects;
      IndexConflict(cmds, s, h, g);
      ConflictSymmetric(s.batches, h, g);
      BeforeIsSmaller(s.batches, g, h);
    }
  }

  /** In every state of every run, whatever was batched, reordered or carried out concurrently, and
      even if some commands were never carried out: the commands that took effect had the results,
      and left the store in the state, of carrying them out one by one in the order of submission. */
  lemma {:induction false} EffectsAreAsSubmitted<V, R>(run: seq<World>, t: nat, cmds: seq<Command<V, R>>, sorted: seq<nat>,
                                                       store: map<Key, V>)
    requires IsRun(run) && t < |run| && Describes(cmds, C.Submitted(run[t].client))
    requires Ascending(sorted) && SameElements(Indexes(run[t].client.batches, run[t].effects), sorted)
    ensures InRange(Indexes(run[t].client.batches, run[t].effects), |cmds|) && InRange(sorted, |cmds|)
    ensures RunInOrder(cmds, Indexes(run[t].client.batches, run[t].effects), store) == RunInOrder(cmds, sorted, store)
  {
    RunKeepsInv(run, t);
    EffectsInRange(run[t]);
    EffectsKeepConflicts(run[t], cmds);
    hide IsRun, Inv, KeepsConflictOrder, RunInOrder;
    SortingSuffices(cmds, Indexes(run[t].client.batches, run[t].effects), sorted, store);
  }

  // ----- Runs in which every command is carried out -----

  /** Nothing has been given up: what is over took effect, and a settled batch is over completely. */
  ghost predicate NothingSkipped(w: World) {
    && (forall g | g in w.finished :: g in w.effects)
    && (forall g: Place | IsPlace(w.client.batches, g) && g.batch in w.client.settled :: g in w.finished)
  }

  /** Then the commands that took effect are closed under earlier conflicts. */
  lemma {:induction false} EarlierConflictsTookEffect(w: World, g: Place, h: Place)
    requires Inv(w) && NothingSkipped(w) && h in w.effects && IsPlace(w.client.batches, g)
    requires Before(g, h) && Conflicting(w.client.batches, g, h)
    ensures g in w.effects
  {
    var s := w.client;
    assert h in w.finished;
    assert C.PlannedAccesses(s.batches[g.batch].items, s.batches[g.batch].accesses);
    if g.batch == h.batch {
      EarlierInBatchFinished(s.batches, s.sent, w.finished, g, h);
    } else {
      SettledBeforeConflict(s, g, h);
    }
  }

  /** The positions that have not taken effect yet, in order. */
  function Missing(order: seq<nat>, n: nat): (rest: seq<nat>)
    ensures Ascending(rest) && forall i: nat :: i in rest <==> i < n && i !in order
  {
    if n == 0 then []
    else
      var rest := Missing(order, n - 1);
      assert forall a | 0 <= a < |rest| :: rest[a] in rest;
      if n - 1 in order then rest else rest + [n - 1]
  }

  lemma {:induction false} MissingCompletes(order: seq<nat>, n: nat)
    requires InRange(order, n) && Distinct(order)
    ensures IsPermutation(order + Missing(order, n), n)
  {
    var all := order + Missing(order, n);
    forall i: nat | i < n
      ensures i in all
    {
      assert i in order || i in Missing(order, n);
    }
    forall a, b | 0 <= a < b < |all|
      ensures all[a] != all[b]
    {
      if a < |order| <= b { assert all[a] in order && all[b] in Missing(order, n); }
    }
    forall a | 0 <= a < |all|
      ensures all[a] < n
    {
      assert all[a] in order || all[a] in Missing(order, n);
    }
  }

  /** A position with a conflict later than itself among the effects has itself taken effect. */
  lemma {:induction false} NoEffectOvertakes<V, R>(w: World, cmds: seq<Command<V, R>>, i: nat, j: nat)
    requires Inv(w) && NothingSkipped(w) && Describes(cmds, C.Submitted(w.client))
    requires j in Indexes(w.client.batches, w.effects) && i < j && Conflict(AccessesOf(cmds), i, j)
    ensures i in Indexes(w.client.batches, w.effects)
  {
    hide C.Inv, Conflicting;
    var batches, order := w.client.batches, Indexes(w.client.batches, w.effects);
    var b :| 0 <= b < |order| && order[b] == j;
    var h := w.effects[b];
    assert h in w.effects;
    IndexHolds(batches, h);
    var g := PlaceOf(batches, i);
    IndexConflict(cmds, w.client, g, h);
    if !Before(g, h) && g != h { BeforeIsSmaller(batches, h, g); }
    EarlierConflictsTookEffect(w, g, h);
    var a :| 0 <= a < |w.effects| && w.effects[a] == g;
    assert order[a] == i;
  }

  lemma {:induction false} CompletionKeepsConflicts<V, R>(w: World, cmds: seq<Command<V, R>>)
    requires Inv(w) && NothingSkipped(w) && Describes(cmds, C.Submitted(w.client))
    ensures var order := Indexes(w.client.batches, w.effects);
            KeepsConflictOrder(AccessesOf(cmds), order + Missing(order, |cmds|))
  {
    var order := Indexes(w.client.batches, w.effects);
    EffectsKeepConflicts(w, cmds);
    hide Inv, NothingSkipped, Describes, Conflict, KeepsConflictOrder, Missing, Distinct;
    forall i: nat, j | j in order && i < j && Conflict(AccessesOf(cmds), i, j)
      ensures i in order
    {
      NoEffectOvertakes(w, cmds, i, j);
    }
    AppendedKeepsConflicts(AccessesOf(cmds), order, Missing(order, |cmds|));
  }

  /** Positions in ascending order may follow if none of them conflicts with a later one before. */
  lemma {:induction false} AppendedKeepsConflicts(accs: seq<Accesses>, order: seq<nat>, rest: seq<nat>)
    requires KeepsConflictOrder(accs, order) && Ascending(rest)
    requires forall i: nat, j | j in order && i < j && Conflict(accs, i, j) :: i in order
    requires forall i | i in rest :: i !in order
    ensures KeepsConflictOrder(accs, order + rest)
  {
    var all := order + rest;
    hide Conflict;
    forall a, b | 0 <= a < b < |all| && Conflict(accs, all[b], all[a])
      ensures all[a] < all[b]
    {
      if b < |order| {
        assert all[a] == order[a] && all[b] == order[b];
      } else if a < |order| {
        assert all[b] in rest && all[a] in order;
      } else {
        assert all[a] == rest[a - |order|] && all[b] == rest[b - |order|];
      }
    }
  }

  lemma {:induction false} ResultsStay<V, R>(cmds: seq<Command<V, R>>, order: seq<nat>, rest: seq<nat>, store: map<Key, V>)
    requires InRange(order + rest, |cmds|) && Distinct(order + rest) && InRange(order, |cmds|)
    ensures var whole, part := RunInOrder(cmds, order + rest, store).results, RunInOrder(cmds, order, store).results;
            forall i | i in order :: i in part && i in whole && whole[i] == part[i]
    decreases |rest|
  {
    if rest == [] {
      assert order + rest == order;
      ResultsOf(cmds, order, store);
    } else {
      var init, m := rest[..|rest| - 1], rest[|rest| - 1];
      assert order + rest == order + init + [m];
      AllButLast(order + init, m, |cmds|);
      LastIsNew(order, init, m);
      ResultsStay(cmds, order, init, store);
      RunOneMore(cmds, order + init, m, store);
    }
  }

  lemma {:induction false} AllButLast(init: seq<nat>, m: nat, n: nat)
    requires InRange(init + [m], n) && Distinct(init + [m])
    ensures InRange(init, n) && m < n && Distinct(init)
  {
    var all := init + [m];
    assert forall a | 0 <= a < |init| :: init[a] == all[a];
    assert all[|init|] == m;
  }

  lemma {:induction false} LastIsNew(order: seq<nat>, init: seq<nat>, m: nat)
    requires Distinct(order + init + [m])
    ensures m !in order
  {
    var all := order + init + [m];
    assert forall a | 0 <= a < |order| :: order[a] == all[a];
    assert all[|order + init|] == m;
  }

  lemma {:induction false} ResultsOf<V, R>(cmds: seq<Command<V, R>>, order: seq<nat>, store: map<Key, V>)
    requires InRange(order, |cmds|)
    ensures forall i | i in order :: i in RunInOrder(cmds, order, store).results
  {
    if order != [] {
      var init, m := order[..|order| - 1], order[|order| - 1];
      ResultsOf(cmds, init, store);
      assert order == init + [m];
    }
  }

  /** As long as no command is given up, every command that has taken effect returned what it would
      have returned had all commands submitted so far been carried out one by one, in the order of
      submission; and once all have taken effect, the store is the one that this would have left. */
  lemma {:induction false} EveryResultIsSequential<V, R>(run: seq<World>, t: nat, cmds: seq<Command<V, R>>, store: map<Key, V>)
    requires IsRun(run) && t < |run| && NothingSkipped(run[t]) && Describes(cmds, C.Submitted(run[t].client))
    ensures var order := Indexes(run[t].client.batches, run[t].effects);
            && InRange(order, |cmds|) && InRange(Sequential(|cmds|), |cmds|)
            && var ours, theirs := RunInOrder(cmds, order, store), RunInOrder(cmds, Sequential(|cmds|), store);
               && (forall i | i in order :: i in ours.results && i in theirs.results && ours.results[i] == theirs.results[i])
               && (|order| == |cmds| ==> ours == theirs)
  {
    var w := run[t];
    RunKeepsInv(run, t);
    EffectsInRange(w);
    var order := Indexes(w.client.batches, w.effects);
    var rest := Missing(order, |cmds|);
    MissingCompletes(order, |cmds|);
    CompletionKeepsConflicts(w, cmds);
    hide IsRun, Inv, NothingSkipped, Describes, KeepsConflictOrder, RunInOrder, Missing;
    ConflictOrderSuffices(cmds, |cmds|, order + rest, store);
    ResultsStay(cmds, order, rest, store);
    if |order| == |cmds| {
      FullMeansNothingMissing(order, rest, |cmds|);
      assert order + rest == order;
    }
  }

  lemma {:induction false} FullMeansNothingMissing(order: seq<nat>, rest: seq<nat>, n: nat)
    requires IsPermutation(order + rest, n) && |order| == n
    ensures rest == []
  {
    PermutationLength(order + rest, n);
  }
}
