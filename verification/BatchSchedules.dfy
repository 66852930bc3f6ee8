/** What a planned batch means: any order of effects that keeps the planned dependencies gives
    every command the result, and leaves the store in the state, of running the batch in order. */
module BatchSchedules {
  import opened Wrappers
  import opened OrderingPlan

  /** What a command does to the keys it sees: new values (None deletes) and its own result. */
  datatype Effect<V, R> = Effect(updates: map<Key, Option<V>>, result: R)

  /** A command sees only the keys it lists and changes only those it lists as written. */
  datatype Command<!V, !R> = Command(accesses: Accesses, run: map<Key, V> -> Effect<V, R>)
  {
    function View(store: map<Key, V>): map<Key, V> {
      map k | k in store && k in accesses :: store[k]
    }

    predicate Changes(updates: map<Key, Option<V>>, k: Key) {
      k in updates && k in accesses && accesses[k] == Write
    }

    function After(store: map<Key, V>): map<Key, V> {
      var updates := run(View(store)).updates;
      map k | k in store.Keys + updates.Keys && (if Changes(updates, k) then updates[k].Some? else k in store)
        :: if Changes(updates, k) then updates[k].value else store[k]
    }

    function ResultOn(store: map<Key, V>): R {
      run(View(store)).result
    }
  }

  predicate InRange(order: seq<nat>, n: nat) {
    forall a | 0 <= a < |order| :: order[a] < n
  }

  /** The store and the results after the commands at the indexes of `order`, in that order. */
  datatype Run<V, R> = Run(store: map<Key, V>, results: map<nat, R>)

  function RunInOrder<V, R>(cmds: seq<Command<V, R>>, order: seq<nat>, store: map<Key, V>): Run<V, R>
    requires InRange(order, |cmds|)
  {
    if order == [] then Run(store, map[])
    else
      var before := RunInOrder(cmds, order[..|order| - 1], store);
      var i := order[|order| - 1];
      Run(cmds[i].After(before.store), before.results[i := cmds[i].ResultOn(before.store)])
  }

  function AccessesOf<V, R>(cmds: seq<Command<V, R>>): (accs: seq<Accesses>)
    ensures |accs| == |cmds|
    ensures forall i | 0 <= i < |cmds| :: accs[i] == cmds[i].accesses
  {
    seq(|cmds|, i requires 0 <= i < |cmds| => cmds[i].accesses)
  }

  /** 0, 1, ..., n - 1: the batch in its own order. */
  function Sequential(n: nat): (r: seq<nat>)
    ensures |r| == n
    ensures forall i | 0 <= i < n :: r[i] == i
  {
    seq(n, i => i)
  }

  predicate Distinct(order: seq<nat>) {
    forall a, b | 0 <= a < b < |order| :: order[a] != order[b]
  }

  /** Every index below n, once. */
  predicate IsPermutation(order: seq<nat>, n: nat) {
    && Distinct(order)
    && InRange(order, n)
    && (forall i: nat | i < n :: i in order)
  }

  /** No two conflicting commands have swapped places. */
  ghost predicate KeepsConflictOrder(accs: seq<Accesses>, order: seq<nat>) {
    forall a, b | 0 <= a < b < |order| && Conflict(accs, order[b], order[a]) :: order[a] < order[b]
  }

  /** Every listed dependency of a command comes before it. */
  predicate RespectsDependencies(deps: seq<seq<nat>>, order: seq<nat>) {
    forall a | 0 <= a < |order| :: order[a] < |deps| && forall d | d in deps[order[a]] :: d in order[..a]
  }

  // ----- Exchanging commands that do not conflict -----

  /** Neither command changes a key that the other one lists. */
  predicate Independent<V, R>(first: Command<V, R>, second: Command<V, R>) {
    forall k | k in first.accesses && k in second.accesses ::
      first.accesses[k] == Read && second.accesses[k] == Read
  }

  function Get<V>(store: map<Key, V>, k: Key): Option<V> {
    if k in store then Some(store[k]) else None
  }

  lemma {:induction false} SameStore<V>(s: map<Key, V>, t: map<Key, V>)
    requires forall k :: Get(s, k) == Get(t, k)
    ensures s == t
  {
    assert forall k :: k in s <==> Get(s, k).Some?;
    assert forall k :: k in t <==> Get(t, k).Some?;
    forall k | k in s
      ensures s[k] == t[k]
    {
      assert Get(s, k) == Get(t, k);
    }
  }

  lemma GetAfter<V, R>(c: Command<V, R>, store: map<Key, V>, k: Key)
    ensures var updates := c.run(c.View(store)).updates;
            Get(c.After(store), k) == if c.Changes(updates, k) then updates[k] else Get(store, k)
  {
  }

  lemma {:induction false} ViewUnaffected<V, R>(first: Command<V, R>, second: Command<V, R>, store: map<Key, V>)
    requires Independent(first, second)
    ensures second.View(first.After(store)) == second.View(store)
  {
    forall k | k in second.accesses
      ensures Get(first.After(store), k) == Get(store, k)
    {
      GetAfter(first, store, k);
    }
    forall k
      ensures Get(second.View(first.After(store)), k) == Get(second.View(store), k)
    {
      if k in second.accesses { assert Get(first.After(store), k) == Get(store, k); }
    }
    SameStore(second.View(first.After(store)), second.View(store));
  }

  lemma {:induction false} IndependentCommute<V, R>(first: Command<V, R>, second: Command<V, R>, store: map<Key, V>)
    requires Independent(first, second) && Independent(second, first)
    ensures second.View(first.After(store)) == second.View(store)
    ensures second.After(first.After(store)) == first.After(second.After(store))
  {
    ViewUnaffected(first, second, store);
    ViewUnaffected(second, first, store);
    forall k
      ensures Get(second.After(first.After(store)), k) == Get(first.After(second.After(store)), k)
    {
      GetAfter(first, store, k);
      GetAfter(second, store, k);
      GetAfter(second, first.After(store), k);
      GetAfter(first, second.After(store), k);
    }
    SameStore(second.After(first.After(store)), first.After(second.After(store)));
  }

  lemma {:induction false} SwapLast<V, R>(cmds: seq<Command<V, R>>, order: seq<nat>, a: nat, b: nat, store: map<Key, V>)
    requires InRange(order, |cmds|)
    requires a < |cmds| && b < |cmds| && a != b && !Conflict(AccessesOf(cmds), a, b)
    ensures RunInOrder(cmds, order + [a, b], store) == RunInOrder(cmds, order + [b, a], store)
  {
    var accs := AccessesOf(cmds);
    forall k | k in cmds[a].accesses && k in cmds[b].accesses
      ensures cmds[a].accesses[k] == Read && cmds[b].accesses[k] == Read
    {
      assert !ConflictOn(accs, a, b, k);
    }
    var start := RunInOrder(cmds, order, store);
    IndependentCommute(cmds[a], cmds[b], start.store);
    IndependentCommute(cmds[b], cmds[a], start.store);
    UpdatesCommute(start.results, a, cmds[a].ResultOn(start.store), b, cmds[b].ResultOn(start.store));
    RunTwoMore(cmds, order, a, b, store);
    RunTwoMore(cmds, order, b, a, store);
  }

  lemma UpdatesCommute<R>(results: map<nat, R>, a: nat, x: R, b: nat, y: R)
    requires a != b
    ensures results[a := x][b := y] == results[b := y][a := x]
  {
  }

  lemma {:induction false} RunTwoMore<V, R>(cmds: seq<Command<V, R>>, order: seq<nat>, a: nat, b: nat, store: map<Key, V>)
    requires InRange(order, |cmds|) && a < |cmds| && b < |cmds|
    ensures var start := RunInOrder(cmds, order, store);
            var next := cmds[a].After(start.store);
            RunInOrder(cmds, order + [a, b], store)
            == Run(cmds[b].After(next), start.results[a := cmds[a].ResultOn(start.store)][b := cmds[b].ResultOn(next)])
  {
    assert (order + [a]) + [b] == order + [a, b];
    RunOneMore(cmds, order, a, store);
    RunOneMore(cmds, order + [a], b, store);
  }

  lemma {:induction false} RunOneMore<V, R>(cmds: seq<Command<V, R>>, order: seq<nat>, a: nat, store: map<Key, V>)
    requires InRange(order, |cmds|) && a < |cmds|
    ensures var start := RunInOrder(cmds, order, store);
            RunInOrder(cmds, order + [a], store)
            == Run(cmds[a].After(start.store), start.results[a := cmds[a].ResultOn(start.store)])
  {
    assert (order + [a])[..|order|] == order;
  }

  /** A command that conflicts with nothing after it may just as well run last. */
  lemma {:induction false} MoveToEnd<V, R>(cmds: seq<Command<V, R>>, front: seq<nat>, m: nat, rest: seq<nat>, store: map<Key, V>)
    requires InRange(front, |cmds|) && m < |cmds| && InRange(rest, |cmds|)
    requires forall b | b in rest :: b != m && !Conflict(AccessesOf(cmds), m, b)
    ensures InRange(front + [m] + rest, |cmds|) && InRange(front + rest + [m], |cmds|)
    ensures RunInOrder(cmds, front + [m] + rest, store) == RunInOrder(cmds, front + rest + [m], store)
    decreases |rest|
  {
    hide RunInOrder, AccessesOf, Conflict, Command.After, Command.ResultOn;
    if rest == [] {
      assert front + [m] + rest == front + rest + [m];
    } else {
      var init, b := rest[..|rest| - 1], rest[|rest| - 1];
      forall x | x in init
        ensures x != m && !Conflict(AccessesOf(cmds), m, x)
      {
        assert x in rest;
      }
      assert b in rest;
      MoveToEnd(cmds, front, m, init, store);
      SwapLast(cmds, front + init, m, b, store);
      RunOneMore(cmds, front + [m] + init, b, store);
      RunOneMore(cmds, front + init + [m], b, store);
      Regroup(front, m, init, b, rest);
    }
  }

  lemma Regroup(front: seq<nat>, m: nat, init: seq<nat>, b: nat, rest: seq<nat>)
    requires rest == init + [b]
    ensures front + [m] + init + [b] == front + [m] + rest
    ensures front + init + [m] + [b] == front + init + [m, b]
    ensures front + init + [b, m] == front + rest + [m]
  {
  }

  ghost predicate SameElements(s: seq<nat>, t: seq<nat>) {
    forall i: nat :: i in s <==> i in t
  }

  /** Commands that took effect in an order that keeps the order of conflicting ones might as well
      have taken effect in their own order: the same results and the same store. */
  lemma {:induction false} SortingSuffices<V, R>(cmds: seq<Command<V, R>>, order: seq<nat>, sorted: seq<nat>, store: map<Key, V>)
    requires InRange(order, |cmds|) && Distinct(order) && KeepsConflictOrder(AccessesOf(cmds), order)
    requires Ascending(sorted) && SameElements(order, sorted)
    ensures InRange(sorted, |cmds|)
    ensures RunInOrder(cmds, order, store) == RunInOrder(cmds, sorted, store)
    decreases |sorted|
  {
    hide RunInOrder, AccessesOf, Conflict, Command.After, Command.ResultOn, KeepsConflictOrder, Distinct, Ascending, SameElements;
    SameEmpty(order, sorted);
    if sorted != [] {
      var m, smaller := sorted[|sorted| - 1], sorted[..|sorted| - 1];
      var front, rest := SplitAtLargest(AccessesOf(cmds), order, sorted);
      PartsInRange(front, m, rest, |cmds|);
      MoveToEnd(cmds, front, m, rest, store);
      SortingSuffices(cmds, front + rest, smaller, store);
      RunOneMore(cmds, front + rest, m, store);
      RunOneMore(cmds, smaller, m, store);
      assert sorted == smaller + [m];
    } else {
      assert order == sorted;
    }
  }

  lemma {:induction false} PartsInRange(front: seq<nat>, m: nat, rest: seq<nat>, n: nat)
    requires InRange(front + [m] + rest, n)
    ensures InRange(front, n) && m < n && InRange(rest, n)
  {
    var all := front + [m] + rest;
    assert forall a | 0 <= a < |front| :: front[a] == all[a];
    assert all[|front|] == m;
    assert forall a | 0 <= a < |rest| :: rest[a] == all[|front| + 1 + a];
  }

  lemma {:induction false} SameEmpty(order: seq<nat>, sorted: seq<nat>)
    requires SameElements(order, sorted)
    ensures order == [] <==> sorted == []
  {
    if order != [] { assert order[0] in sorted; }
    if sorted != [] { assert sorted[0] in order; }
  }

  /** Nothing behind the largest index conflicts with it, and what remains without it is an order
      of the same kind. */
  lemma {:induction false} SplitAtLargest(accs: seq<Accesses>, order: seq<nat>, sorted: seq<nat>) returns (front: seq<nat>, rest: seq<nat>)
    requires Distinct(order) && Ascending(sorted) && SameElements(order, sorted) && KeepsConflictOrder(accs, order)
    requires sorted != []
    ensures var m, smaller := sorted[|sorted| - 1], sorted[..|sorted| - 1];
            && order == front + [m] + rest && (forall b | b in rest :: b != m && !Conflict(accs, m, b))
            && Distinct(front + rest) && Ascending(smaller) && SameElements(front + rest, smaller)
            && KeepsConflictOrder(accs, front + rest)
  {
    hide Distinct, Ascending, KeepsConflictOrder;
    var m := sorted[|sorted| - 1];
    assert m in sorted;
    var p :| 0 <= p < |order| && order[p] == m;
    front, rest := order[..p], order[p + 1..];
    forall b | b in rest
      ensures b != m && !Conflict(accs, m, b)
    {
      NothingAfterConflicts(accs, order, sorted, p, b);
    }
    WithoutLargest(accs, order, sorted, p);
  }

  /** Any permutation that keeps the order of conflicting commands means the same as the
      batch in order: the same result for each command and the same final store. */
  lemma {:induction false} ConflictOrderSuffices<V, R>(cmds: seq<Command<V, R>>, n: nat, order: seq<nat>, store: map<Key, V>)
    requires n <= |cmds| && IsPermutation(order, n)
    requires KeepsConflictOrder(AccessesOf(cmds), order)
    ensures InRange(Sequential(n), |cmds|)
    ensures RunInOrder(cmds, order, store) == RunInOrder(cmds, Sequential(n), store)
  {
    hide RunInOrder, AccessesOf, KeepsConflictOrder;
    SequentialHas(n);
    assert forall i | i in order :: i < n;
    SortingSuffices(cmds, order, Sequential(n), store);
  }

  lemma {:induction false} SequentialHas(n: nat)
    ensures forall i: nat :: i in Sequential(n) <==> i < n
  {
    forall i: nat | i < n
      ensures i in Sequential(n)
    {
      assert Sequential(n)[i] == i;
    }
  }

  lemma {:induction false} NothingAfterConflicts(accs: seq<Accesses>, order: seq<nat>, sorted: seq<nat>, p: nat, b: nat)
    requires Distinct(order) && Ascending(sorted) && SameElements(order, sorted) && KeepsConflictOrder(accs, order)
    requires p < |order| && sorted != [] && order[p] == sorted[|sorted| - 1]
    requires b in order[p + 1..]
    ensures b != order[p] && !Conflict(accs, order[p], b)
  {
    var q :| 0 <= q < |order| - p - 1 && order[p + 1..][q] == b;
    assert order[p + 1 + q] == b && p < p + 1 + q;
    assert b in order && b in sorted;
    ConflictSymmetric(accs, order[p], b);
  }

  lemma {:induction false} ConflictSymmetric(accs: seq<Accesses>, i: nat, j: nat)
    ensures Conflict(accs, i, j) <==> Conflict(accs, j, i)
  {
    assert forall k :: ConflictOn(accs, i, j, k) <==> ConflictOn(accs, j, i, k);
  }

  lemma {:induction false} WithoutLargest(accs: seq<Accesses>, order: seq<nat>, sorted: seq<nat>, p: nat)
    requires Distinct(order) && Ascending(sorted) && SameElements(order, sorted) && KeepsConflictOrder(accs, order)
    requires p < |order| && sorted != [] && order[p] == sorted[|sorted| - 1]
    ensures var s, smaller := order[..p] + order[p + 1..], sorted[..|sorted| - 1];
            Distinct(s) && Ascending(smaller) && SameElements(s, smaller) && KeepsConflictOrder(accs, s)
  {
    var s, smaller := order[..p] + order[p + 1..], sorted[..|sorted| - 1];
    assert forall a | 0 <= a < |s| :: s[a] == order[if a < p then a else a + 1];
    forall i: nat
      ensures i in s <==> i in smaller
    {
      InWithout(order, p, i);
      assert sorted == smaller + [order[p]];
      assert order[p] !in smaller;
      assert i in order <==> i in sorted;
    }
  }

  lemma {:induction false} InWithout(order: seq<nat>, p: nat, i: nat)
    requires Distinct(order) && p < |order|
    ensures i in order[..p] + order[p + 1..] <==> i in order && i != order[p]
  {
    var s := order[..p] + order[p + 1..];
    assert forall a | 0 <= a < |s| :: s[a] == order[if a < p then a else a + 1];
    if i in order && i != order[p] {
      var a :| 0 <= a < |order| && order[a] == i;
      assert s[if a < p then a else a - 1] == i;
    }
  }

  lemma {:induction false} PermutationLength(order: seq<nat>, n: nat)
    requires IsPermutation(order, n)
    ensures |order| == n
  {
    assert order == [] || order[0] < n;
    if n > 0 {
      assert n - 1 in order;
      var p :| 0 <= p < |order| && order[p] == n - 1;
      var s := order[..p] + order[p + 1..];
      forall i: nat | i < n - 1
        ensures i in s
      {
        InWithout(order, p, i);
      }
      assert forall a | 0 <= a < |s| :: s[a] == order[if a < p then a else a + 1];
      PermutationLength(s, n - 1);
    }
  }

  // ----- From dependencies to meaning -----

  lemma {:induction false} PathIsOrdered(deps: seq<seq<nat>>, order: seq<nat>, a: nat, path: seq<nat>, j: nat)
    requires RespectsDependencies(deps, order)
    requires a < |order| && IsPath(deps, path, order[a], j)
    ensures j in order[..a + 1]
    decreases |path|
  {
    if |path| == 1 {
      assert order[..a + 1][a] == j;
    } else {
      assert path[1] in deps[order[a]];
      var b :| 0 <= b < a && order[b] == path[1];
      var tail := path[1..];
      forall c | 0 <= c < |tail| - 1
        ensures tail[c] < |deps| && tail[c + 1] in deps[tail[c]]
      {
        assert tail[c] == path[c + 1] && tail[c + 1] == path[c + 2];
      }
      PathIsOrdered(deps, order, b, tail, j);
      assert order[..b + 1] <= order[..a + 1];
    }
  }

  /** An order that respects the planned dependencies keeps the order of all conflicts. */
  lemma {:induction false} PlannedOrderKeepsConflicts(accs: seq<Accesses>, deps: seq<seq<nat>>, order: seq<nat>)
    requires ListsDirectDependencies(accs, deps)
    requires Distinct(order) && RespectsDependencies(deps, order)
    ensures KeepsConflictOrder(accs, order)
  {
    forall a, b | 0 <= a < b < |order| && Conflict(accs, order[b], order[a])
      ensures order[a] < order[b]
    {
      if order[b] < order[a] {
        var k :| ConflictOn(accs, order[b], order[a], k);
        ConflictsAreCovered(accs, deps, order[b], order[a], k);
        var path :| IsPath(deps, path, order[a], order[b]);
        PathIsOrdered(deps, order, a, path, order[b]);
        assert false;
      }
    }
  }

  /** The planner is sound: every order of effects that respects its dependencies is
      indistinguishable, results and store alike, from running the batch in order. */
  lemma {:induction false} PlannedSchedulesAreSequential<V, R>(cmds: seq<Command<V, R>>, plan: Plan, order: seq<nat>, store: map<Key, V>)
    requires IsPlan(AccessesOf(cmds), plan)
    requires IsPermutation(order, |cmds|) && RespectsDependencies(plan.dependencies, order)
    ensures RunInOrder(cmds, order, store) == RunInOrder(cmds, Sequential(|cmds|), store)
  {
    PlannedOrderKeepsConflicts(AccessesOf(cmds), plan.dependencies, order);
    ConflictOrderSuffices(cmds, |cmds|, order, store);
  }
}
