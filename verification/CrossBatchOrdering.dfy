/** Ordering between auto-batches: every batch waits for the last write and the open reads of the
    keys it touches, and unclassified batches wait for, and hold up, everything. */
module CrossBatchOrdering {
  import opened Wrappers
  import opened OrderingPlan

  /** The key accesses of a submitted command; None when it cannot be classified. */
  type Item = Option<seq<(Key, Access)>>

  /** A key-state object is identified by its key and the batch whose flush created it. */
  datatype Ref = Ref(key: Key, creator: nat)

  datatype KeyState = KeyState(lastWrite: Option<nat>, openReads: set<nat>)

  /** A flushed batch: its commands, the accesses its plan lists (None when unclassified), the
      batches it waits for, and the key-state objects its completion handler holds. */
  datatype Batch = Batch(items: seq<Item>, accesses: Option<Accesses>, dependencies: set<nat>, captured: map<Key, Ref>)

  /** `globalTail` is None for an already resolved tail. `sent` and `settled` are the batches
      whose dependencies have all settled, and whose operation has. */
  datatype State = State(pending: seq<Item>, batches: seq<Batch>, globalTail: Option<nat>,
                         keyStates: map<Key, Ref>, objects: map<Ref, KeyState>,
                         inFlight: set<nat>, sent: set<nat>, settled: set<nat>)

  const INITIAL := State([], [], None, map[], map[], {}, {}, {})

  // ----- The steps -----

  function RefFor(s: State, k: Key): Ref {
    if k in s.keyStates then s.keyStates[k] else Ref(k, |s.batches|)
  }

  function ObjectFor(s: State, k: Key): KeyState {
    if k in s.keyStates && s.keyStates[k] in s.objects then s.objects[s.keyStates[k]] else KeyState(None, {})
  }

  function AsSet(o: Option<nat>): set<nat> {
    if o.Some? then {o.value} else {}
  }

  /** What an access to a key in this state has to wait for. */
  function WaitsOnKey(st: KeyState, access: Access): set<nat> {
    AsSet(st.lastWrite) + (if access == Write then st.openReads else {})
  }

  function KeyDependencies(s: State, accesses: Accesses, keys: set<Key>): set<nat>
    requires keys <= accesses.Keys
  {
    set k, d | k in keys && d in WaitsOnKey(ObjectFor(s, k), accesses[k]) :: d
  }

  function Dependencies(s: State, accesses: Option<Accesses>): set<nat> {
    if accesses.None? then s.inFlight
    else AsSet(s.globalTail) + KeyDependencies(s, accesses.value, accesses.value.Keys)
  }

  /** The object of a key after the batch has registered itself. */
  function Registered(st: KeyState, access: Access, id: nat): KeyState {
    if access == Read then st.(openReads := st.openReads + {id}) else KeyState(Some(id), {})
  }

  function Captured(s: State, accesses: Accesses): map<Key, Ref> {
    map k | k in accesses :: RefFor(s, k)
  }

  function RegisteredObjects(s: State, accesses: Accesses): map<Ref, KeyState> {
    map r | r in s.objects.Keys + Captured(s, accesses).Values ::
      if r.key in accesses && r == RefFor(s, r.key)
      then Registered(ObjectFor(s, r.key), accesses[r.key], |s.batches|)
      else if r in s.objects then s.objects[r] else KeyState(None, {})
  }

  /** Flush the first `count` pending commands as one batch with the planned accesses. */
  function Flush(s: State, count: nat, accesses: Option<Accesses>): State
    requires count <= |s.pending|
  {
    var id := |s.batches|;
    var held := if accesses.None? then map[] else Captured(s, accesses.value);
    var batch := Batch(s.pending[..count], accesses, Dependencies(s, accesses), held);
    var t := s.(pending := s.pending[count..], batches := s.batches + [batch], inFlight := s.inFlight + {id});
    if accesses.None? then t.(globalTail := Some(id))
    else t.(keyStates := s.keyStates + held, objects := RegisteredObjects(s, accesses.value))
  }

  /** A key-state object after a batch that held it has settled. */
  function Unregistered(st: KeyState, access: Access, id: nat): KeyState {
    if access == Read then st.(openReads := st.openReads - {id})
    else if st.lastWrite == Some(id) then st.(lastWrite := None)
    else st
  }

  function UnregisteredObjects(s: State, id: nat): map<Ref, KeyState>
    requires id < |s.batches| && s.batches[id].accesses.Some?
  {
    var b := s.batches[id];
    map r | r in s.objects ::
      if r.key in b.accesses.value && r.key in b.captured && b.captured[r.key] == r
      then Unregistered(s.objects[r], b.accesses.value[r.key], id)
      else s.objects[r]
  }

  predicate Unused(st: KeyState) {
    st.lastWrite.None? && st.openReads == {}
  }

  /** The keys whose state the completion handler of a batch removes. */
  predicate Dropped(s: State, objects: map<Ref, KeyState>, id: nat, k: Key)
    requires id < |s.batches|
  {
    && k in s.batches[id].captured && k in s.keyStates
    && s.keyStates[k] == s.batches[id].captured[k]
    && s.keyStates[k] in objects && Unused(objects[s.keyStates[k]])
  }

  /** The operation of a sent batch settles and its completion handler runs. */
  function Settle(s: State, id: nat): State
    requires id < |s.batches|
  {
    var t := s.(inFlight := s.inFlight - {id}, settled := s.settled + {id});
    if s.batches[id].accesses.None? then
      if s.globalTail == Some(id) then t.(globalTail := None) else t
    else
      var objects := UnregisteredObjects(s, id);
      t.(objects := objects, keyStates := map k | k in s.keyStates && !Dropped(s, objects, id, k) :: s.keyStates[k])
  }

  ghost predicate SubmitStep(s: State, s': State) {
    exists item :: s' == s.(pending := s.pending + [item])
  }

  /** A flush takes some pending commands; its accesses are what the planner reports. */
  ghost predicate FlushStep(s: State, s': State) {
    exists count: nat, accesses :: 0 < count <= |s.pending|
                                   && PlannedAccesses(s.pending[..count], accesses)
                                   && s' == Flush(s, count, accesses)
  }

  ghost predicate PlannedAccesses(items: seq<Item>, accesses: Option<Accesses>) {
    && (accesses.Some? <==> Classified(items) && ListsSomeKey(items))
    && (accesses.Some? ==> IsBatchAccess(MergedBatch(items), accesses.value))
  }

  predicate Sendable(s: State, id: nat) {
    id < |s.batches| && id !in s.sent && s.batches[id].dependencies <= s.settled
  }

  ghost predicate SendStep(s: State, s': State) {
    exists id :: Sendable(s, id) && s' == s.(sent := s.sent + {id})
  }

  predicate Settleable(s: State, id: nat) {
    id < |s.batches| && id in s.sent && id !in s.settled
  }

  ghost predicate SettleStep(s: State, s': State) {
    exists id :: Settleable(s, id) && s' == Settle(s, id)
  }

  ghost predicate Step(s: State, s': State) {
    SubmitStep(s, s') || FlushStep(s, s') || SendStep(s, s') || SettleStep(s, s')
  }

  ghost predicate IsRun(run: seq<State>) {
    && |run| > 0 && run[0] == INITIAL
    && forall t | 0 <= t < |run| - 1 :: Step(run[t], run[t + 1])
  }

  // ----- Waiting, directly or through other batches -----

  ghost predicate WaitsFor(batches: seq<Batch>, j: nat, i: nat)
    requires j < |batches|
    decreases j
  {
    i in batches[j].dependencies || exists d | d in batches[j].dependencies && d < j :: WaitsFor(batches, d, i)
  }

  predicate Backward(batches: seq<Batch>) {
    forall j | 0 <= j < |batches| :: forall d | d in batches[j].dependencies :: d < j
  }

  lemma {:induction false} WaitsForExtended(batches: seq<Batch>, b: Batch, j: nat, i: nat)
    requires j < |batches|
    ensures WaitsFor(batches + [b], j, i) <==> WaitsFor(batches, j, i)
    decreases j
  {
    assert (batches + [b])[j] == batches[j];
    forall d | d in batches[j].dependencies && d < j
      ensures WaitsFor(batches + [b], d, i) <==> WaitsFor(batches, d, i)
    {
      WaitsForExtended(batches, b, d, i);
    }
  }

  // ----- The invariant -----

  /** The two batches access a common key and at least one writes it, or one is unclassified. */
  ghost predicate BatchConflict(a: Batch, b: Batch) {
    || a.accesses.None? || b.accesses.None?
    || exists k :: KeyConflict(a.accesses.value, b.accesses.value, k)
  }

  predicate KeyConflict(a: Accesses, b: Accesses, k: Key) {
    k in a && k in b && (a[k] == Write || b[k] == Write)
  }

  /** Waiting for batch w is as good as waiting for batch j. */
  ghost predicate Behind(batches: seq<Batch>, w: nat, j: nat) {
    w < |batches| && (w == j || WaitsFor(batches, w, j))
  }

  /** An unsettled batch is still reachable through the object of each of its keys, which is the
      very object it captured, even if its own mark has been cleared or replaced. */
  ghost predicate StillGuarded(s: State, j: nat, k: Key)
    requires j < |s.batches| && s.batches[j].accesses.Some? && k in s.batches[j].accesses.value
  {
    && k in s.batches[j].captured && k in s.keyStates && s.keyStates[k] == s.batches[j].captured[k]
    && s.keyStates[k] in s.objects
    && Guards(s.batches, s.objects[s.keyStates[k]], s.batches[j].accesses.value[k], j)
  }

  ghost predicate Guards(batches: seq<Batch>, st: KeyState, access: Access, j: nat) {
    || (st.lastWrite.Some? && Behind(batches, st.lastWrite.value, j))
    || (access == Read && j in st.openReads)
  }

  ghost predicate GuardsKeys(s: State) {
    forall j: nat, k | j < |s.batches| && j !in s.settled && s.batches[j].accesses.Some? && k in s.batches[j].accesses.value
      :: StillGuarded(s, j, k)
  }

  ghost predicate GuardsUnclassified(s: State) {
    forall j: nat | j < |s.batches| && j !in s.settled && s.batches[j].accesses.None?
      :: s.globalTail.Some? && Behind(s.batches, s.globalTail.value, j)
  }

  /** The object graph: marks name flushed batches, keys point to their own objects. */
  ghost predicate WellFormed(s: State) {
    && Backward(s.batches)
    && (forall r | r in s.objects :: r.creator < |s.batches| && MarksBelow(s.objects[r], |s.batches|))
    && (forall k | k in s.keyStates :: s.keyStates[k].key == k && s.keyStates[k] in s.objects)
    && (s.globalTail.Some? ==> s.globalTail.value < |s.batches|)
    && (forall j: nat | j < |s.batches| && s.batches[j].accesses.Some? ::
          s.batches[j].captured.Keys == s.batches[j].accesses.value.Keys)
    && (forall j: nat :: j in s.inFlight <==> j < |s.batches| && j !in s.settled)
  }

  predicate MarksBelow(st: KeyState, n: nat) {
    (st.lastWrite.Some? ==> st.lastWrite.value < n) && forall d | d in st.openReads :: d < n
  }

  ghost predicate SentAfterDependencies(s: State) {
    && s.settled <= s.sent
    && (forall j | j in s.sent :: j < |s.batches| && s.batches[j].dependencies <= s.settled)
  }

  ghost predicate ConflictsOrdered(s: State) {
    forall i: nat, j: nat | i < j < |s.batches| && i !in s.settled && BatchConflict(s.batches[i], s.batches[j])
      :: WaitsFor(s.batches, j, i)
  }

  ghost predicate AccessesPlanned(s: State) {
    forall j | 0 <= j < |s.batches| :: PlannedAccesses(s.batches[j].items, s.batches[j].accesses)
  }

  ghost predicate Inv(s: State) {
    && WellFormed(s) && GuardsKeys(s) && GuardsUnclassified(s)
    && SentAfterDependencies(s) && ConflictsOrdered(s) && AccessesPlanned(s)
  }

  /** Once a batch has been sent, everything it waits for, however indirectly, has settled. */
  lemma {:induction false} SentMeansSettled(s: State, j: nat, i: nat)
    requires Backward(s.batches) && SentAfterDependencies(s)
    requires j in s.sent && WaitsFor(s.batches, j, i)
    ensures i in s.settled
    decreases j
  {
    if i !in s.batches[j].dependencies {
      var d :| d in s.batches[j].dependencies && d < j && WaitsFor(s.batches, d, i);
      SentMeansSettled(s, d, i);
    }
  }

  // ----- A flush keeps the invariant -----

  lemma FlushDependencies(s: State, accesses: Option<Accesses>)
    requires WellFormed(s)
    ensures forall d | d in Dependencies(s, accesses) :: d < |s.batches|
  {
  }

  /** The new batch waits for every earlier unsettled batch it conflicts with. */
  lemma {:induction false} FlushWaits(s: State, count: nat, accesses: Option<Accesses>, i: nat)
    requires Inv(s) && count <= |s.pending| && i < |s.batches| && i !in s.settled
    requires var t := Flush(s, count, accesses); BatchConflict(s.batches[i], t.batches[|s.batches|])
    ensures var t := Flush(s, count, accesses); WaitsFor(t.batches, |s.batches|, i)
  {
    var t, n := Flush(s, count, accesses), |s.batches|;
    var b := t.batches[n];
    assert t.batches == s.batches + [b] && b.dependencies == Dependencies(s, accesses);
    if accesses.None? {
      assert i in b.dependencies;
    } else if s.batches[i].accesses.None? {
      NewWaitsBehind(s, b, s.globalTail.value, i);
    } else {
      var k :| KeyConflict(s.batches[i].accesses.value, accesses.value, k);
      assert StillGuarded(s, i, k);
      var st := s.objects[s.keyStates[k]];
      assert ObjectFor(s, k) == st;
      assert forall d | d in WaitsOnKey(st, accesses.value[k]) :: d in b.dependencies;
      if i in st.openReads && accesses.value[k] == Write {
        assert i in WaitsOnKey(st, Write);
      } else {
        assert st.lastWrite.value in WaitsOnKey(st, accesses.value[k]);
        NewWaitsBehind(s, b, st.lastWrite.value, i);
      }
    }
  }

  lemma {:induction false} NewWaitsBehind(s: State, b: Batch, w: nat, i: nat)
    requires w in b.dependencies && Behind(s.batches, w, i)
    ensures WaitsFor(s.batches + [b], |s.batches|, i)
  {
    assert (s.batches + [b])[|s.batches|] == b;
    if w != i { WaitsForExtended(s.batches, b, w, i); }
  }

  lemma {:induction false} FlushKeepsOrder(s: State, count: nat, accesses: Option<Accesses>)
    requires Inv(s) && count <= |s.pending|
    ensures ConflictsOrdered(Flush(s, count, accesses))
  {
    var t, n := Flush(s, count, accesses), |s.batches|;
    assert t.batches == s.batches + [t.batches[n]];
    forall i: nat, j: nat | i < j < |t.batches| && i !in t.settled && BatchConflict(t.batches[i], t.batches[j])
      ensures WaitsFor(t.batches, j, i)
    {
      if j < n {
        assert WaitsFor(s.batches, j, i);
        WaitsForExtended(s.batches, t.batches[n], j, i);
      } else {
        FlushWaits(s, count, accesses, i);
      }
    }
  }

  lemma {:induction false} FlushedObject(s: State, accesses: Accesses, k: Key)
    requires k in accesses && WellFormed(s)
    ensures RefFor(s, k) in RegisteredObjects(s, accesses)
    ensures RegisteredObjects(s, accesses)[RefFor(s, k)] == Registered(ObjectFor(s, k), accesses[k], |s.batches|)
  {
    assert Captured(s, accesses)[k] in Captured(s, accesses).Values;
    assert RefFor(s, k).key == k;
  }

  lemma UntouchedObject(s: State, accesses: Accesses, k: Key)
    requires k !in accesses && k in s.keyStates && WellFormed(s)
    ensures s.keyStates[k] in RegisteredObjects(s, accesses)
    ensures RegisteredObjects(s, accesses)[s.keyStates[k]] == s.objects[s.keyStates[k]]
  {
  }

  lemma {:induction false} BehindExtended(s: State, b: Batch, w: nat, j: nat)
    requires Behind(s.batches, w, j)
    ensures Behind(s.batches + [b], w, j)
  {
    if w != j { WaitsForExtended(s.batches, b, w, j); }
  }

  lemma {:induction false} GuardsExtended(s: State, b: Batch, st: KeyState, access: Access, j: nat)
    requires Guards(s.batches, st, access, j)
    ensures Guards(s.batches + [b], st, access, j)
  {
    if st.lastWrite.Some? && Behind(s.batches, st.lastWrite.value, j) {
      BehindExtended(s, b, st.lastWrite.value, j);
    }
  }

  lemma {:induction false} FlushAtKey(s: State, count: nat, accesses: Option<Accesses>, k: Key)
    requires WellFormed(s) && count <= |s.pending| && k in s.keyStates
    ensures var t := Flush(s, count, accesses);
            && k in t.keyStates && t.keyStates[k] == s.keyStates[k] && t.keyStates[k] in t.objects
            && t.objects[t.keyStates[k]]
               == if accesses.Some? && k in accesses.value
                  then Registered(s.objects[s.keyStates[k]], accesses.value[k], |s.batches|)
                  else s.objects[s.keyStates[k]]
  {
    if accesses.Some? {
      if k in accesses.value { FlushedObject(s, accesses.value, k); } else { UntouchedObject(s, accesses.value, k); }
    }
  }

  lemma {:induction false} FlushKeepsOldGuard(s: State, count: nat, accesses: Option<Accesses>, j: nat, k: Key)
    requires Inv(s) && count <= |s.pending|
    requires j < |s.batches| && j !in s.settled && s.batches[j].accesses.Some? && k in s.batches[j].accesses.value
    ensures StillGuarded(Flush(s, count, accesses), j, k)
  {
    var t, n := Flush(s, count, accesses), |s.batches|;
    assert t.batches == s.batches + [t.batches[n]];
    assert t.batches[j] == s.batches[j];
    assert StillGuarded(s, j, k);
    FlushAtKey(s, count, accesses, k);
    GuardsExtended(s, t.batches[n], s.objects[s.keyStates[k]], s.batches[j].accesses.value[k], j);
    if accesses.Some? && k in accesses.value && accesses.value[k] == Write {
      assert KeyConflict(s.batches[j].accesses.value, accesses.value, k);
      FlushWaits(s, count, accesses, j);
    }
    if accesses.Some? && k in accesses.value {
      RegisteredGuards(t.batches, s.objects[s.keyStates[k]], accesses.value[k], n, s.batches[j].accesses.value[k], j);
    }
  }

  lemma RegisteredGuards(batches: seq<Batch>, st: KeyState, newAccess: Access, n: nat, access: Access, j: nat)
    requires Guards(batches, st, access, j)
    requires n < |batches| && (newAccess == Write ==> WaitsFor(batches, n, j))
    ensures Guards(batches, Registered(st, newAccess, n), access, j)
  {
  }

  lemma {:induction false} FlushKeepsGuard(s: State, count: nat, accesses: Option<Accesses>, j: nat, k: Key)
    requires Inv(s) && count <= |s.pending|
    requires var t := Flush(s, count, accesses);
             j < |t.batches| && j !in t.settled && t.batches[j].accesses.Some? && k in t.batches[j].accesses.value
    ensures StillGuarded(Flush(s, count, accesses), j, k)
  {
    if j < |s.batches| {
      FlushKeepsOldGuard(s, count, accesses, j, k);
    } else {
      FlushedObject(s, accesses.value, k);
    }
  }

  lemma {:induction false} RegisteredWellFormed(s: State, accesses: Accesses)
    requires WellFormed(s)
    ensures forall r | r in RegisteredObjects(s, accesses) ::
              r.creator < |s.batches| + 1 && MarksBelow(RegisteredObjects(s, accesses)[r], |s.batches| + 1)
  {
    forall r | r in RegisteredObjects(s, accesses)
      ensures r.creator < |s.batches| + 1 && MarksBelow(RegisteredObjects(s, accesses)[r], |s.batches| + 1)
    {
      if r !in s.objects {
        var k :| k in accesses && Captured(s, accesses)[k] == r;
      }
    }
  }

  lemma {:induction false} FlushKeepsWellFormed(s: State, count: nat, accesses: Option<Accesses>)
    requires WellFormed(s) && count <= |s.pending|
    requires SentAfterDependencies(s)
    ensures WellFormed(Flush(s, count, accesses))
  {
    var t, n := Flush(s, count, accesses), |s.batches|;
    FlushDependencies(s, accesses);
    assert forall j: nat :: j in t.settled ==> j < n;
    if accesses.Some? {
      RegisteredWellFormed(s, accesses.value);
      forall k | k in t.keyStates
        ensures t.keyStates[k].key == k && t.keyStates[k] in t.objects
      {
        if k in accesses.value { FlushedObject(s, accesses.value, k); }
        else { UntouchedObject(s, accesses.value, k); }
      }
    }
  }

  lemma {:induction false} FlushKeepsInv(s: State, count: nat, accesses: Option<Accesses>)
    requires Inv(s) && count <= |s.pending| && PlannedAccesses(s.pending[..count], accesses)
    ensures Inv(Flush(s, count, accesses))
  {
    var t, n := Flush(s, count, accesses), |s.batches|;
    FlushKeepsWellFormed(s, count, accesses);
    FlushKeepsOrder(s, count, accesses);
    forall j: nat, k | j < |t.batches| && j !in t.settled && t.batches[j].accesses.Some? && k in t.batches[j].accesses.value
      ensures StillGuarded(t, j, k)
    {
      FlushKeepsGuard(s, count, accesses, j, k);
    }
    forall j: nat | j < |t.batches| && j !in t.settled && t.batches[j].accesses.None?
      ensures t.globalTail.Some? && Behind(t.batches, t.globalTail.value, j)
    {
      if j < n {
        if accesses.None? {
          FlushWaits(s, count, accesses, j);
        } else if s.globalTail.value != j {
          WaitsForExtended(s.batches, t.batches[n], s.globalTail.value, j);
        }
      }
    }
  }

  // ----- A settling batch keeps the invariant -----

  lemma {:induction false} UnregisteredGuards(s: State, id: nat, st: KeyState, idAccess: Access, access: Access, j: nat)
    requires Backward(s.batches) && SentAfterDependencies(s) && Settleable(s, id)
    requires j != id && j !in s.settled && Guards(s.batches, st, access, j)
    ensures Guards(s.batches, Unregistered(st, idAccess, id), access, j)
    ensures !Unused(Unregistered(st, idAccess, id))
  {
    if st.lastWrite.Some? && Behind(s.batches, st.lastWrite.value, j) && st.lastWrite.value == id {
      SentMeansSettled(s, id, j);
    }
  }

  lemma {:induction false} SettleKeepsGuard(s: State, id: nat, j: nat, k: Key)
    requires WellFormed(s) && SentAfterDependencies(s) && Settleable(s, id)
    requires j < |s.batches| && j !in s.settled && j != id && s.batches[j].accesses.Some? && k in s.batches[j].accesses.value
    requires StillGuarded(s, j, k)
    ensures StillGuarded(Settle(s, id), j, k)
  {
    if s.batches[id].accesses.Some? {
      var r := s.keyStates[k];
      if k in s.batches[id].captured && s.batches[id].captured[k] == r {
        UnregisteredGuards(s, id, s.objects[r], s.batches[id].accesses.value[k], s.batches[j].accesses.value[k], j);
        assert UnregisteredObjects(s, id)[r] == Unregistered(s.objects[r], s.batches[id].accesses.value[k], id);
      } else {
        assert UnregisteredObjects(s, id)[r] == s.objects[r];
      }
      assert !Dropped(s, UnregisteredObjects(s, id), id, k);
    }
  }

  lemma {:induction false} SettleKeepsWellFormed(s: State, id: nat)
    requires WellFormed(s) && Settleable(s, id)
    ensures WellFormed(Settle(s, id))
  {
    hide Backward, Dropped;
  }

  lemma SettleKeepsRest(s: State, id: nat)
    requires SentAfterDependencies(s) && ConflictsOrdered(s) && AccessesPlanned(s) && Settleable(s, id)
    ensures var t := Settle(s, id); SentAfterDependencies(t) && ConflictsOrdered(t) && AccessesPlanned(t)
  {
    hide PlannedAccesses, BatchConflict, UnregisteredObjects, Dropped;
  }

  lemma {:induction false} SettleKeepsGuards(s: State, id: nat)
    requires WellFormed(s) && SentAfterDependencies(s) && GuardsKeys(s) && GuardsUnclassified(s) && Settleable(s, id)
    ensures var t := Settle(s, id); GuardsKeys(t) && GuardsUnclassified(t)
  {
    hide WellFormed, SentAfterDependencies, StillGuarded, UnregisteredObjects, Dropped;
    var t := Settle(s, id);
    forall j: nat, k | j < |t.batches| && j !in t.settled && t.batches[j].accesses.Some? && k in t.batches[j].accesses.value
      ensures StillGuarded(t, j, k)
    {
      SettleKeepsGuard(s, id, j, k);
    }
    forall j: nat | j < |t.batches| && j !in t.settled && t.batches[j].accesses.None?
      ensures t.globalTail.Some? && Behind(t.batches, t.globalTail.value, j)
    {
      SettleKeepsTail(s, id, j);
    }
  }

  lemma {:induction false} SettleKeepsTail(s: State, id: nat, j: nat)
    requires WellFormed(s) && SentAfterDependencies(s) && Settleable(s, id) && j !in s.settled && j != id
    requires s.globalTail.Some? && Behind(s.batches, s.globalTail.value, j)
    ensures Settle(s, id).globalTail == s.globalTail
  {
    if s.globalTail == Some(id) && WaitsFor(s.batches, id, j) { SentMeansSettled(s, id, j); }
  }

  lemma {:induction false} SettleKeepsInv(s: State, id: nat)
    requires Inv(s) && Settleable(s, id)
    ensures Inv(Settle(s, id))
  {
    hide WellFormed, GuardsKeys, GuardsUnclassified, SentAfterDependencies, ConflictsOrdered, AccessesPlanned, Settle;
    SettleKeepsWellFormed(s, id);
    SettleKeepsGuards(s, id);
    SettleKeepsRest(s, id);
  }

  lemma {:induction false} StepKeepsInv(s: State, s': State)
    requires Inv(s) && Step(s, s')
    ensures Inv(s')
  {
    if SubmitStep(s, s') {
      SubmitKeepsInv(s, s');
    } else if FlushStep(s, s') {
      var count: nat, accesses :| 0 < count <= |s.pending| && PlannedAccesses(s.pending[..count], accesses)
                                  && s' == Flush(s, count, accesses);
      FlushKeepsInv(s, count, accesses);
    } else if SendStep(s, s') {
      SendKeepsInv(s, s');
    } else {
      var id :| Settleable(s, id) && s' == Settle(s, id);
      SettleKeepsInv(s, id);
    }
  }

  lemma {:induction false} SubmitKeepsInv(s: State, s': State)
    requires Inv(s) && SubmitStep(s, s')
    ensures Inv(s')
  {
    forall j: nat, k | j < |s.batches| && j !in s.settled && s.batches[j].accesses.Some? && k in s.batches[j].accesses.value
      ensures StillGuarded(s', j, k)
    {
      assert StillGuarded(s, j, k);
    }
  }

  lemma {:induction false} SendKeepsInv(s: State, s': State)
    requires Inv(s) && SendStep(s, s')
    ensures Inv(s')
  {
    forall j: nat, k | j < |s.batches| && j !in s.settled && s.batches[j].accesses.Some? && k in s.batches[j].accesses.value
      ensures StillGuarded(s', j, k)
    {
      assert StillGuarded(s, j, k);
    }
  }

  lemma {:induction false} RunKeepsInv(run: seq<State>, t: nat)
    requires IsRun(run) && t < |run|
    ensures Inv(run[t])
  {
    if t > 0 {
      RunKeepsInv(run, t - 1);
      StepKeepsInv(run[t - 1], run[t]);
    }
  }

  // ----- The guarantees of every run -----

  /** In every state of every run: a batch has been sent only if each earlier batch that conflicts
      with it on some key has settled, and, if either of the two is unclassified, in any case. */
  lemma {:induction false} ConflictingBatchesNeverOverlap(run: seq<State>, t: nat, i: nat, j: nat)
    requires IsRun(run) && t < |run|
    requires i < j && j in run[t].sent
    ensures j < |run[t].batches|
    ensures BatchConflict(run[t].batches[i], run[t].batches[j]) ==> i in run[t].settled
  {
    RunKeepsInv(run, t);
    if BatchConflict(run[t].batches[i], run[t].batches[j]) && i !in run[t].settled {
      SentMeansSettled(run[t], j, i);
    }
  }

  /** Two commands that must keep their order: a common key that one writes, or one of them
      cannot be classified. */
  ghost predicate ItemConflict(a: Item, b: Item) {
    || a.None? || b.None?
    || exists k :: KeyConflict(Merged(a.value), Merged(b.value), k)
  }

  lemma {:induction false} BatchSeesKey(items: seq<Item>, accesses: Accesses, p: nat, k: Key)
    requires IsBatchAccess(MergedBatch(items), accesses)
    requires p < |items| && items[p].Some? && k in Merged(items[p].value)
    ensures k in accesses && (Merged(items[p].value)[k] == Write ==> accesses[k] == Write)
  {
    assert Touches(MergedBatch(items), p, k);
    if Merged(items[p].value)[k] == Write { assert Writes(MergedBatch(items), p, k); }
  }

  /** Two commands that must keep their order put their batches in conflict. */
  lemma {:induction false} ItemsConflictInBatches(s: State, i: nat, p: nat, j: nat, q: nat)
    requires AccessesPlanned(s) && i < |s.batches| && j < |s.batches|
    requires p < |s.batches[i].items| && q < |s.batches[j].items|
    requires ItemConflict(s.batches[i].items[p], s.batches[j].items[q])
    ensures BatchConflict(s.batches[i], s.batches[j])
  {
    var a, b := s.batches[i], s.batches[j];
    assert PlannedAccesses(a.items, a.accesses) && PlannedAccesses(b.items, b.accesses);
    if a.accesses.Some? && b.accesses.Some? {
      var k :| KeyConflict(Merged(a.items[p].value), Merged(b.items[q].value), k);
      BatchSeesKey(a.items, a.accesses.value, p, k);
      BatchSeesKey(b.items, b.accesses.value, q, k);
      assert KeyConflict(a.accesses.value, b.accesses.value, k);
    }
  }

  /** The same for single commands: a command is sent only after the batch of every earlier
      flushed command it must not overtake has settled. */
  lemma {:induction false} ConflictingCommandsNeverOverlap(run: seq<State>, t: nat, i: nat, p: nat, j: nat, q: nat)
    requires IsRun(run) && t < |run|
    requires i < j && j in run[t].sent && j < |run[t].batches|
    requires p < |run[t].batches[i].items| && q < |run[t].batches[j].items|
    requires ItemConflict(run[t].batches[i].items[p], run[t].batches[j].items[q])
    ensures i in run[t].settled
  {
    RunKeepsInv(run, t);
    ItemsConflictInBatches(run[t], i, p, j, q);
    ConflictingBatchesNeverOverlap(run, t, i, j);
  }

  // ----- No command is lost, repeated or moved -----

  function FlushedItems(batches: seq<Batch>): seq<Item> {
    if batches == [] then [] else FlushedItems(batches[..|batches| - 1]) + batches[|batches| - 1].items
  }

  /** All commands ever submitted, in submission order. */
  function Submitted(s: State): seq<Item> {
    FlushedItems(s.batches) + s.pending
  }

  lemma {:induction false} FlushStepKeepsPlaces(s: State, s': State)
    requires FlushStep(s, s')
    ensures Submitted(s') == Submitted(s)
  {
    hide PlannedAccesses, Dependencies, Captured;
    var count: nat, accesses :| 0 < count <= |s.pending| && PlannedAccesses(s.pending[..count], accesses)
                                && s' == Flush(s, count, accesses);
    FlushAddsBatch(s, count, accesses);
    FlushKeepsPlaces(s.batches, s'.batches[|s.batches|], s.pending, count);
  }

  lemma {:induction false} FlushAddsBatch(s: State, count: nat, accesses: Option<Accesses>)
    requires count <= |s.pending|
    ensures var t := Flush(s, count, accesses);
            && t.pending == s.pending[count..] && |t.batches| == |s.batches| + 1
            && t.batches == s.batches + [t.batches[|s.batches|]] && t.batches[|s.batches|].items == s.pending[..count]
  {
    hide Dependencies, Captured;
  }

  lemma {:induction false} OtherStepsKeepBatches(s: State, s': State)
    requires SendStep(s, s') || SettleStep(s, s')
    ensures s'.batches == s.batches && s'.pending == s.pending
  {
    hide Dropped, UnregisteredObjects, Sendable;
  }

  /** The batches and the queue always hold the submitted commands in their original order: a
      submission adds one at the end, and nothing else changes the sequence. */
  lemma {:induction false} CommandsKeepTheirPlaces(s: State, s': State)
    requires Step(s, s')
    ensures SubmitStep(s, s') ==> Submitted(s) < Submitted(s') && |Submitted(s')| == |Submitted(s)| + 1
    ensures !SubmitStep(s, s') ==> Submitted(s') == Submitted(s)
  {
    hide FlushStep, SendStep, SettleStep;
    if SubmitStep(s, s') {
      var item :| s' == s.(pending := s.pending + [item]);
      assert Submitted(s') == Submitted(s) + [item];
    } else if FlushStep(s, s') {
      FlushStepKeepsPlaces(s, s');
    } else {
      OtherStepsKeepBatches(s, s');
    }
  }

  lemma {:induction false} FlushKeepsPlaces(batches: seq<Batch>, b: Batch, pending: seq<Item>, count: nat)
    requires count <= |pending| && b.items == pending[..count]
    ensures FlushedItems(batches + [b]) + pending[count..] == FlushedItems(batches) + pending
  {
    assert (batches + [b])[..|batches|] == batches;
    assert pending == pending[..count] + pending[count..];
  }
}
