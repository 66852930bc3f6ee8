/** The batch planner: it reduces the key accesses of a batch to a sparse dependency list,
    the last write of each key plus the reads made since that write. */
module OrderingPlan {
  import opened Wrappers

  type Key = string

  datatype Access = Read | Write

  /** The strongest access a command makes to each key it lists. */
  type Accesses = map<Key, Access>

  datatype Plan = Plan(accesses: Accesses, dependencies: seq<seq<nat>>)

  // ----- Conflicts and what the planner should list -----

  predicate Touches(accs: seq<Accesses>, i: nat, k: Key) {
    i < |accs| && k in accs[i]
  }

  predicate Writes(accs: seq<Accesses>, i: nat, k: Key) {
    Touches(accs, i, k) && accs[i][k] == Write
  }

  /** Commands j and i must keep their order because of key k. */
  predicate ConflictOn(accs: seq<Accesses>, j: nat, i: nat, k: Key) {
    && Touches(accs, j, k) && Touches(accs, i, k)
    && (Writes(accs, j, k) || Writes(accs, i, k))
  }

  ghost predicate Conflict(accs: seq<Accesses>, j: nat, i: nat) {
    exists k :: ConflictOn(accs, j, i, k)
  }

  ghost predicate NoWriteBetween(accs: seq<Accesses>, j: nat, i: nat, k: Key) {
    forall m: nat | j < m < i :: !Writes(accs, m, k)
  }

  /** Command i directly depends on the earlier command j: they conflict on a key that no
      command between them writes. */
  ghost predicate DependsDirectly(accs: seq<Accesses>, i: nat, j: nat) {
    j < i && exists k :: ConflictOn(accs, j, i, k) && NoWriteBetween(accs, j, i, k)
  }

  predicate Ascending(s: seq<nat>) {
    forall a, b | 0 <= a < b < |s| :: s[a] < s[b]
  }

  /** The merged access map of each command; an unclassified command lists nothing. */
  ghost function MergedBatch(batch: seq<Option<seq<(Key, Access)>>>): (accs: seq<Accesses>)
    ensures |accs| == |batch|
    ensures forall i | 0 <= i < |batch| :: accs[i] == if batch[i].Some? then Merged(batch[i].value) else map[]
  {
    seq(|batch|, i requires 0 <= i < |batch| => if batch[i].Some? then Merged(batch[i].value) else map[])
  }

  /** A command that lists a key several times accesses it with the strongest of them. */
  ghost function Merged(raw: seq<(Key, Access)>): (m: Accesses)
    ensures forall k :: k in m <==> (k, Read) in raw || (k, Write) in raw
    ensures forall k | k in m :: m[k] == Write <==> (k, Write) in raw
  {
    if raw == [] then map[]
    else
      var init, last := raw[..|raw| - 1], raw[|raw| - 1];
      LastMember(raw);
      var m := Merged(init);
      if last.1 == Write || last.0 !in m then m[last.0 := last.1] else m
  }

  lemma {:induction false} LastMember(raw: seq<(Key, Access)>)
    requires raw != []
    ensures var init, last := raw[..|raw| - 1], raw[|raw| - 1];
            forall k, a :: (k, a) in raw <==> (k, a) in init || (k == last.0 && a == last.1)
  {
    var init, last := raw[..|raw| - 1], raw[|raw| - 1];
    assert raw == init + [last];
    assert last == (last.0, last.1);
  }

  /** The access map of a whole batch: what any of its commands touches or writes. */
  ghost predicate IsBatchAccess(accs: seq<Accesses>, all: Accesses) {
    && (forall k :: k in all <==> exists i: nat :: Touches(accs, i, k))
    && (forall k | k in all :: all[k] == Write <==> exists i: nat :: Writes(accs, i, k))
  }

  ghost predicate IsPlan(accs: seq<Accesses>, plan: Plan) {
    && IsBatchAccess(accs, plan.accesses)
    && ListsDirectDependencies(accs, plan.dependencies)
  }

  ghost predicate ListsDirectDependencies(accs: seq<Accesses>, deps: seq<seq<nat>>) {
    ListsUpTo(accs, |accs|, deps)
  }

  ghost predicate ListsUpTo(accs: seq<Accesses>, n: nat, deps: seq<seq<nat>>) {
    && |deps| == n
    && forall i: nat | i < n :: IsRow(accs, i, deps[i])
  }

  /** The dependency row of command i: its direct dependencies, each once and in order. */
  ghost predicate IsRow(accs: seq<Accesses>, i: nat, row: seq<nat>) {
    && Ascending(row)
    && forall j: nat :: j in row <==> DependsDirectly(accs, i, j)
  }

  predicate Classified(batch: seq<Option<seq<(Key, Access)>>>) {
    forall i | 0 <= i < |batch| :: batch[i].Some?
  }

  predicate ListsSomeKey(batch: seq<Option<seq<(Key, Access)>>>) {
    exists i | 0 <= i < |batch| :: batch[i].Some? && batch[i].value != []
  }

  // ----- The planner -----

  /** Plan a batch. There is no plan when a command is unclassified or no key is accessed;
      otherwise the plan lists exactly the direct dependencies of each command. */
  method PlanBatch(batch: seq<Option<seq<(Key, Access)>>>) returns (plan: Option<Plan>)
    ensures plan.Some? <==> Classified(batch) && ListsSomeKey(batch)
    ensures plan.Some? ==> IsPlan(MergedBatch(batch), plan.value)
  {
    ghost var accs := MergedBatch(batch);
    var accesses: Accesses := map[];
    var dependencies: seq<seq<nat>> := [];
    var lastWrites: map<Key, nat> := map[];
    var openReads: map<Key, set<nat>> := map[];
    for index := 0 to |batch|
      invariant Classified(batch[..index])
      invariant IsBatchAccess(accs[..index], accesses)
      invariant ListsUpTo(accs, index, dependencies)
      invariant Tracks(accs, index, lastWrites, openReads)
    {
      if batch[index].None? { return None; }
      var command := MergeCommand(batch[index].value);
      assert command == accs[index];
      accesses := MergeIntoBatch(accesses, command, accs, index);
      var found := CollectDependencies(accs, index, command, lastWrites, openReads);
      var row := AscendingOf(found, index);
      ListsOneMore(accs, index, dependencies, row);
      dependencies := dependencies + [row];
      lastWrites, openReads := RecordAccesses(accs, index, command, lastWrites, openReads);
    }
    assert accs[..|batch|] == accs && batch[..|batch|] == batch;
    AnyAccess(batch, accesses);
    if |accesses| == 0 { return None; }
    return Some(Plan(accesses, dependencies));
  }

  lemma {:induction false} ListsOneMore(accs: seq<Accesses>, n: nat, deps: seq<seq<nat>>, row: seq<nat>)
    requires ListsUpTo(accs, n, deps) && IsRow(accs, n, row)
    ensures ListsUpTo(accs, n + 1, deps + [row])
  {
    forall i: nat | i < n + 1
      ensures IsRow(accs, i, (deps + [row])[i])
    {
      if i < n { assert (deps + [row])[i] == deps[i]; }
    }
  }

  lemma {:induction false} AnyAccess(batch: seq<Option<seq<(Key, Access)>>>, accesses: Accesses)
    requires Classified(batch)
    requires IsBatchAccess(MergedBatch(batch), accesses)
    ensures |accesses| != 0 <==> ListsSomeKey(batch)
  {
    var accs := MergedBatch(batch);
    if i: nat :| i < |batch| && batch[i].value != [] {
      var p := batch[i].value[0];
      assert p == (p.0, p.1) && (p.1 == Read || p.1 == Write);
      assert Touches(accs, i, p.0);
      assert p.0 in accesses;
    } else {
      assert forall i: nat | i < |accs| :: accs[i] == map[];
      assert forall i: nat, k :: !Touches(accs, i, k);
      assert accesses.Keys == {};
    }
  }

  /** What the loop of the planner knows before it reads command `index`: for each key the
      last write so far, and the reads made since that write. */
  ghost predicate Tracks(accs: seq<Accesses>, index: nat, lastWrites: map<Key, nat>, openReads: map<Key, set<nat>>) {
    && (forall k | k in lastWrites ::
          lastWrites[k] < index && Writes(accs, lastWrites[k], k) && NoWriteBetween(accs, lastWrites[k], index, k))
    && (forall k, j: nat | j < index && Writes(accs, j, k) :: k in lastWrites)
    && (forall k, j: nat :: IsOpenRead(openReads, k, j) <==> ReadSinceWrite(accs, index, k, j))
  }

  predicate IsOpenRead(openReads: map<Key, set<nat>>, k: Key, j: nat) {
    k in openReads && j in openReads[k]
  }

  ghost predicate ReadSinceWrite(accs: seq<Accesses>, index: nat, k: Key, j: nat) {
    j < index && Touches(accs, j, k) && !Writes(accs, j, k) && NoWriteBetween(accs, j, index, k)
  }

  method MergeCommand(raw: seq<(Key, Access)>) returns (command: Accesses)
    ensures command == Merged(raw)
  {
    command := map[];
    for i := 0 to |raw|
      invariant command == Merged(raw[..i])
    {
      var (key, access) := raw[i];
      assert raw[..i + 1][..i] == raw[..i];
      if access == Write || key !in command { command := command[key := access]; }
    }
    assert raw[..|raw|] == raw;
  }

  /** Folding one more command into the access map of the commands before it. */
  method MergeIntoBatch(accesses: Accesses, command: Accesses, ghost accs: seq<Accesses>, ghost index: nat)
    returns (all: Accesses)
    requires index < |accs| && command == accs[index]
    requires IsBatchAccess(accs[..index], accesses)
    ensures IsBatchAccess(accs[..index + 1], all)
  {
    all := accesses;
    var todo := command.Keys;
    while todo != {}
      invariant todo <= command.Keys
      invariant forall k :: k in all <==> k in accesses || k in command.Keys - todo
      invariant forall k | k in all :: all[k] == Write <==>
                  (k in accesses && accesses[k] == Write) || (k in command.Keys - todo && command[k] == Write)
    {
      var key :| key in todo;
      if command[key] == Write || key !in all { all := all[key := command[key]]; }
      todo := todo - {key};
    }
    BatchAccessGrows(accs, index, accesses, all);
  }

  lemma {:induction false} BatchAccessGrows(accs: seq<Accesses>, index: nat, accesses: Accesses, all: Accesses)
    requires index < |accs| && IsBatchAccess(accs[..index], accesses)
    requires forall k :: k in all <==> k in accesses || k in accs[index]
    requires forall k | k in all :: all[k] == Write <==>
               (k in accesses && accesses[k] == Write) || (k in accs[index] && accs[index][k] == Write)
    ensures IsBatchAccess(accs[..index + 1], all)
  {
    var before, after := accs[..index], accs[..index + 1];
    assert forall i: nat, k :: i < |before| ==> (Touches(after, i, k) <==> Touches(before, i, k));
    assert forall i: nat, k :: i < |before| ==> (Writes(after, i, k) <==> Writes(before, i, k));
    assert forall k :: Touches(after, |before|, k) <==> k in accs[index];
    assert forall k :: Writes(after, |before|, k) <==> k in accs[index] && accs[index][k] == Write;
  }

  method CollectDependencies(ghost accs: seq<Accesses>, index: nat, command: Accesses,
                             lastWrites: map<Key, nat>, openReads: map<Key, set<nat>>)
    returns (found: set<nat>)
    requires index < |accs| && command == accs[index]
    requires Tracks(accs, index, lastWrites, openReads)
    ensures forall j: nat :: j in found <==> DependsDirectly(accs, index, j)
    ensures forall j | j in found :: j < index
  {
    found := {};
    var todo := command.Keys;
    while todo != {}
      invariant todo <= command.Keys
      invariant forall j: nat :: j in found <==> LinkedByOneOf(accs, index, j, command.Keys - todo)
    {
      var key :| key in todo;
      ghost var done := command.Keys - todo;
      var added := if key in lastWrites then {lastWrites[key]} else {};
      if command[key] == Write && key in openReads { added := added + openReads[key]; }
      found := found + added;
      forall j: nat
        ensures LinkedByOneOf(accs, index, j, done + {key}) <==> LinkedByOneOf(accs, index, j, done) || j in added
      {
        LinkedByTracked(accs, index, lastWrites, openReads, key, j);
        assert LinkedByOneOf(accs, index, j, done + {key}) <==>
               LinkedByOneOf(accs, index, j, done) || LinkedBy(accs, index, j, key);
      }
      todo := todo - {key};
      assert command.Keys - todo == done + {key};
    }
    forall j: nat
      ensures j in found <==> DependsDirectly(accs, index, j)
    {
      if DependsDirectly(accs, index, j) {
        var k :| ConflictOn(accs, j, index, k) && NoWriteBetween(accs, j, index, k);
        assert k in command.Keys && LinkedBy(accs, index, j, k);
      }
    }
  }

  ghost predicate LinkedByOneOf(accs: seq<Accesses>, i: nat, j: nat, keys: set<Key>) {
    exists k :: k in keys && LinkedBy(accs, i, j, k)
  }

  lemma {:induction false} LinkedByTracked(accs: seq<Accesses>, index: nat, lastWrites: map<Key, nat>, openReads: map<Key, set<nat>>,
                        k: Key, j: nat)
    requires index < |accs| && k in accs[index]
    requires Tracks(accs, index, lastWrites, openReads)
    ensures LinkedBy(accs, index, j, k) <==>
            || (k in lastWrites && j == lastWrites[k])
            || (accs[index][k] == Write && k in openReads && j in openReads[k])
  {
    if LinkedBy(accs, index, j, k) && Writes(accs, j, k) {
      assert k in lastWrites && Writes(accs, lastWrites[k], k);
    } else if accs[index][k] == Write {
      assert IsOpenRead(openReads, k, j) <==> ReadSinceWrite(accs, index, k, j);
    }
  }

  /** Key k makes command i depend directly on j. */
  ghost predicate LinkedBy(accs: seq<Accesses>, i: nat, j: nat, k: Key) {
    j < i && ConflictOn(accs, j, i, k) && NoWriteBetween(accs, j, i, k)
  }

  method RecordAccesses(ghost accs: seq<Accesses>, index: nat, command: Accesses,
                        lastWrites: map<Key, nat>, openReads: map<Key, set<nat>>)
    returns (lastWrites': map<Key, nat>, openReads': map<Key, set<nat>>)
    requires index < |accs| && command == accs[index]
    requires Tracks(accs, index, lastWrites, openReads)
    ensures Tracks(accs, index + 1, lastWrites', openReads')
  {
    lastWrites', openReads' := UpdateTables(index, command, lastWrites, openReads);
    TablesTrack(accs, index, lastWrites, openReads, lastWrites', openReads');
  }

  /** Both tables after a command: it replaces what they say of the keys it writes and joins the open
      reads of those it reads. */
  predicate Updated(index: nat, command: Accesses, lastWrites: map<Key, nat>, openReads: map<Key, set<nat>>,
                    lastWrites': map<Key, nat>, openReads': map<Key, set<nat>>, keys: set<Key>) {
    && (forall k | k in lastWrites.Keys + lastWrites'.Keys :: k !in keys || k !in command || command[k] == Read ==>
          k in lastWrites' && k in lastWrites && lastWrites'[k] == lastWrites[k])
    && (forall k | k in openReads.Keys + openReads'.Keys :: k !in keys || k !in command ==>
          k in openReads' && k in openReads && openReads'[k] == openReads[k])
    && (forall k | k in keys && k in command && command[k] == Write ::
          k in lastWrites' && lastWrites'[k] == index && k !in openReads')
    && (forall k | k in keys && k in command && command[k] == Read ::
          k in openReads' && openReads'[k] == (if k in openReads then openReads[k] else {}) + {index})
  }

  method UpdateTables(index: nat, command: Accesses, lastWrites: map<Key, nat>, openReads: map<Key, set<nat>>)
    returns (lastWrites': map<Key, nat>, openReads': map<Key, set<nat>>)
    ensures Updated(index, command, lastWrites, openReads, lastWrites', openReads', command.Keys)
  {
    lastWrites', openReads' := lastWrites, openReads;
    var todo := command.Keys;
    while todo != {}
      invariant todo <= command.Keys
      invariant Updated(index, command, lastWrites, openReads, lastWrites', openReads', command.Keys - todo)
    {
      var key :| key in todo;
      if command[key] == Read {
        openReads' := openReads'[key := (if key in openReads' then openReads'[key] else {}) + {index}];
      } else {
        openReads' := openReads' - {key};
        lastWrites' := lastWrites'[key := index];
      }
      todo := todo - {key};
    }
  }

  lemma {:induction false} TablesTrack(accs: seq<Accesses>, index: nat, lastWrites: map<Key, nat>, openReads: map<Key, set<nat>>,
                                       lastWrites': map<Key, nat>, openReads': map<Key, set<nat>>)
    requires index < |accs| && Tracks(accs, index, lastWrites, openReads)
    requires Updated(index, accs[index], lastWrites, openReads, lastWrites', openReads', accs[index].Keys)
    ensures Tracks(accs, index + 1, lastWrites', openReads')
  {
    forall k, j: nat
      ensures IsOpenRead(openReads', k, j) <==> ReadSinceWrite(accs, index + 1, k, j)
    {
      assert IsOpenRead(openReads, k, j) <==> ReadSinceWrite(accs, index, k, j);
      if j <= index { OneMoreCommand(accs, index, k, j); }
    }
    forall k | k in lastWrites'
      ensures lastWrites'[k] < index + 1 && Writes(accs, lastWrites'[k], k)
      ensures NoWriteBetween(accs, lastWrites'[k], index + 1, k)
    {
      OneMoreCommand(accs, index, k, lastWrites'[k]);
    }
    forall k, j: nat | j < index + 1 && Writes(accs, j, k)
      ensures k in lastWrites'
    {
      assert j == index || j < index;
    }
  }

  lemma OneMoreCommand(accs: seq<Accesses>, index: nat, k: Key, j: nat)
    requires index < |accs| && j <= index
    ensures NoWriteBetween(accs, j, index + 1, k) <==>
            j == index || (NoWriteBetween(accs, j, index, k) && !Writes(accs, index, k))
  {
  }

  /** The elements of a set of earlier indexes, in ascending order. */
  function AscendingOf(s: set<nat>, bound: nat): (r: seq<nat>)
    requires forall j | j in s :: j < bound
    ensures Ascending(r)
    ensures forall j: nat :: j in r <==> j in s
  {
    if bound == 0 then []
    else if bound - 1 in s then
      var r := AscendingOf(s - {bound - 1}, bound - 1);
      assert forall a | 0 <= a < |r| :: r[a] in s - {bound - 1};
      r + [bound - 1]
    else AscendingOf(s, bound - 1)
  }

  // ----- The sparse list covers every conflict -----

  /** `path` leads from i down to j along listed dependencies. */
  ghost predicate IsPath(deps: seq<seq<nat>>, path: seq<nat>, i: nat, j: nat) {
    && |path| > 0 && path[0] == i && path[|path| - 1] == j
    && forall a | 0 <= a < |path| - 1 :: path[a] < |deps| && path[a + 1] in deps[path[a]]
  }

  ghost predicate Reaches(deps: seq<seq<nat>>, i: nat, j: nat) {
    exists path :: IsPath(deps, path, i, j)
  }

  lemma {:induction false} ReachesStep(deps: seq<seq<nat>>, i: nat, j: nat)
    requires i < |deps| && j in deps[i]
    ensures Reaches(deps, i, j)
  {
    assert IsPath(deps, [i, j], i, j);
  }

  lemma {:induction false} ReachesTransitive(deps: seq<seq<nat>>, i: nat, m: nat, j: nat)
    requires Reaches(deps, i, m) && Reaches(deps, m, j)
    ensures Reaches(deps, i, j)
  {
    var p :| IsPath(deps, p, i, m);
    var q :| IsPath(deps, q, m, j);
    var r := p + q[1..];
    forall a | 0 <= a < |r| - 1
      ensures r[a] < |deps| && r[a + 1] in deps[r[a]]
    {
      if a >= |p| - 1 { assert r[a] == q[a - (|p| - 1)]; }
    }
    assert IsPath(deps, r, i, j);
  }

  /** Every read/write and write/write conflict of the batch is covered by a chain of listed
      dependencies, however many writes of the key lie in between. */
  lemma {:induction false} ConflictsAreCovered(accs: seq<Accesses>, deps: seq<seq<nat>>, j: nat, i: nat, k: Key)
    requires ListsDirectDependencies(accs, deps)
    requires j < i && ConflictOn(accs, j, i, k)
    ensures Reaches(deps, i, j)
    decreases i - j
  {
    if NoWriteBetween(accs, j, i, k) {
      assert DependsDirectly(accs, i, j);
      ReachesStep(deps, i, j);
    } else {
      var m: nat :| j < m < i && Writes(accs, m, k);
      ConflictsAreCovered(accs, deps, j, m, k);
      ConflictsAreCovered(accs, deps, m, i, k);
      ReachesTransitive(deps, i, m, j);
    }
  }

  /** The planner orders nothing it does not have to: a listed dependency is a conflict. */
  lemma {:induction false} ListedDependenciesConflict(accs: seq<Accesses>, deps: seq<seq<nat>>, i: nat, j: nat)
    requires ListsDirectDependencies(accs, deps)
    requires i < |deps| && j in deps[i]
    ensures j < i && Conflict(accs, j, i)
  {
    assert DependsDirectly(accs, i, j);
  }
}
