/** The auto-batch executor as it updates its own fields; what its runs guarantee is proved
    about the steps of CrossBatchOrdering. */
module AutoBatch {
  import opened Wrappers
  import opened OrderingPlan
  import opened CrossBatchOrdering

  class AutoBatchExecutor {
    const maxCommands: nat
    var pending: seq<Item>
    var batches: seq<Batch>
    var globalBatchTail: Option<nat>
    var batchKeyStates: map<Key, Ref>
    var keyStateObjects: map<Ref, KeyState>
    var inFlightBatches: set<nat>
    var sentBatches: set<nat>
    var settledBatches: set<nat>

    ghost function Model(): State
      reads this
    {
      State(pending, batches, globalBatchTail, batchKeyStates, keyStateObjects,
            inFlightBatches, sentBatches, settledBatches)
    }

    ghost predicate Valid()
      reads this
    {
      maxCommands > 0 && Inv(Model())
    }

    constructor (maxCommands: nat)
      requires maxCommands > 0
      ensures Valid() && Model() == INITIAL && this.maxCommands == maxCommands
    {
      this.maxCommands := maxCommands;
      pending, batches, globalBatchTail := [], [], None;
      batchKeyStates, keyStateObjects := map[], map[];
      inFlightBatches, sentBatches, settledBatches := {}, {}, {};
    }

    /** Queue a command; a full queue is flushed at once. */
    method Submit(item: Item)
      requires Valid()
      modifies this
      ensures Valid()
      ensures var queued := old(Model()).(pending := old(pending) + [item]);
              if |queued.pending| < maxCommands then Model() == queued
              else exists accesses :: PlannedAccesses(queued.pending[..maxCommands], accesses)
                                      && Model() == Flush(queued, maxCommands, accesses)
    {
      ghost var before := Model();
      pending := pending + [item];
      assert SubmitStep(before, Model());
      SubmitKeepsInv(before, Model());
      if |pending| >= maxCommands { FlushNow(); }
    }

    /** Turn the oldest pending commands into a batch that waits for all it must follow. */
    method FlushNow()
      requires Valid()
      modifies this
      ensures Valid()
      ensures old(pending) == [] ==> Model() == old(Model())
      ensures old(pending) != [] ==>
                var count := if |old(pending)| < maxCommands then |old(pending)| else maxCommands;
                exists accesses :: PlannedAccesses(old(pending)[..count], accesses)
                                   && Model() == Flush(old(Model()), count, accesses)
    {
      if pending == [] { return; }
      ghost var before := Model();
      var count := if |pending| < maxCommands then |pending| else maxCommands;
      var batch := pending[..count];
      var plan := PlanBatch(batch);
      var accesses := if plan.Some? then Some(plan.value.accesses) else None;
      assert PlannedAccesses(batch, accesses);
      FlushKeepsInv(before, count, accesses);
      if accesses.None? {
        StartUnclassified(batch, count);
      } else {
        StartClassified(batch, count, accesses.value);
      }
    }

    /** A batch without a plan waits for every batch in flight and becomes the tail. */
    method StartUnclassified(batch: seq<Item>, count: nat)
      requires count <= |pending| && batch == pending[..count]
      modifies this
      ensures Model() == Flush(old(Model()), count, None)
    {
      var operation := |batches|;
      pending := pending[count..];
      batches := batches + [Batch(batch, None, inFlightBatches, map[])];
      globalBatchTail := Some(operation);
      inFlightBatches := inFlightBatches + {operation};
    }

    /** A planned batch waits for the tail and for the marks on its keys, then leaves its own. */
    method StartClassified(batch: seq<Item>, count: nat, accesses: Accesses)
      requires count <= |pending| && batch == pending[..count] && WellFormed(Model())
      modifies this
      ensures Model() == Flush(old(Model()), count, Some(accesses))
    {
      ghost var before := Model();
      var operation := |batches|;
      var known, objects, captured, waits := CaptureKeyStates(batchKeyStates, keyStateObjects, accesses, operation);
      var dependencies := AsSet(globalBatchTail) + waits;
      var marked := RegisterOperation(objects, captured, accesses, operation);
      FlushedAs(before, count, accesses, objects, captured, waits, marked);
      pending := pending[count..];
      batchKeyStates, keyStateObjects := known, marked;
      batches := batches + [Batch(batch, Some(accesses), dependencies, captured)];
      inFlightBatches := inFlightBatches + {operation};
    }

    /** Every dependency of the batch has settled: its commands are handed to the executor. */
    method SendBatch(operation: nat)
      requires Valid() && Sendable(Model(), operation)
      modifies this
      ensures Valid() && Model() == old(Model()).(sent := old(sentBatches) + {operation})
    {
      ghost var before := Model();
      sentBatches := sentBatches + {operation};
      assert SendStep(before, Model());
      SendKeepsInv(before, Model());
    }

    /** The completion handler of a sent batch. */
    method CompleteBatch(operation: nat)
      requires Valid() && Settleable(Model(), operation)
      modifies this
      ensures Valid() && Model() == Settle(old(Model()), operation)
    {
      ghost var before := Model();
      settledBatches := settledBatches + {operation};
      inFlightBatches := inFlightBatches - {operation};
      var batch := batches[operation];
      if batch.accesses.None? {
        if globalBatchTail == Some(operation) { globalBatchTail := None; }
      } else {
        HeldObjects(before, operation);
        keyStateObjects, batchKeyStates :=
          UnregisterOperation(keyStateObjects, batchKeyStates, batch.captured, batch.accesses.value, operation);
        SettledAs(before, operation, keyStateObjects, batchKeyStates);
      }
      SettleKeepsInv(before, operation);
    }
  }

  /** Look up or create the state object of each key, and gather what to wait for. */
  method CaptureKeyStates(keyStates: map<Key, Ref>, objects: map<Ref, KeyState>, accesses: Accesses, operation: nat)
    returns (known: map<Key, Ref>, objects': map<Ref, KeyState>, captured: map<Key, Ref>, waits: set<nat>)
    requires forall k | k in keyStates :: keyStates[k].key == k && keyStates[k] in objects
    requires forall r | r in objects :: r.creator < operation
    ensures captured == map k | k in accesses :: RefOf(keyStates, k, operation)
    ensures known == keyStates + captured
    ensures forall k | k in accesses :: captured[k] in objects'
    ensures forall r :: r in objects' <==> r in objects || (r.key in accesses && r == RefOf(keyStates, r.key, operation))
    ensures forall r | r in objects' :: objects'[r] == ObjectOf(objects, r)
    ensures forall d :: d in waits <==> Awaited(keyStates, objects, accesses, operation, accesses.Keys, d)
  {
    hide Awaited, CapturedSoFar;
    known, objects', captured, waits := keyStates, objects, map[], {};
    var todo := accesses.Keys;
    NothingCaptured(keyStates, objects, operation);
    NothingAwaited(keyStates, objects, accesses, operation);
    assert accesses.Keys - todo == {};
    while todo != {}
      invariant todo <= accesses.Keys
      invariant CapturedSoFar(keyStates, objects, operation, accesses.Keys - todo, known, objects', captured)
      invariant forall d :: d in waits <==> Awaited(keyStates, objects, accesses, operation, accesses.Keys - todo, d)
    {
      var key :| key in todo;
      ghost var done := accesses.Keys - todo;
      var state: KeyState;
      known, objects', captured, state := CaptureKey(keyStates, objects, operation, done, known, objects', captured, key);
      waits := waits + WaitsOnKey(state, accesses[key]);
      AwaitedOneMore(keyStates, objects, accesses, operation, done, key);
      todo := todo - {key};
      assert accesses.Keys - todo == done + {key};
    }
    assert accesses.Keys - todo == accesses.Keys;
    AllCaptured(keyStates, objects, operation, accesses, known, objects', captured);
  }

  /** The states of these keys have been looked up or created. */
  ghost predicate CapturedSoFar(keyStates: map<Key, Ref>, objects: map<Ref, KeyState>, operation: nat, keys: set<Key>,
                                known: map<Key, Ref>, objects': map<Ref, KeyState>, captured: map<Key, Ref>) {
    KeysCaptured(keyStates, operation, keys, known, captured) && ObjectsCreated(keyStates, objects, operation, keys, objects')
  }

  ghost predicate KeysCaptured(keyStates: map<Key, Ref>, operation: nat, keys: set<Key>, known: map<Key, Ref>, captured: map<Key, Ref>) {
    && captured.Keys == keys && (forall k | k in keys :: captured[k] == RefOf(keyStates, k, operation))
    && (forall k :: k in known <==> k in keyStates || k in keys)
    && (forall k | k in known :: known[k] == RefOf(keyStates, k, operation))
  }

  ghost predicate ObjectsCreated(keyStates: map<Key, Ref>, objects: map<Ref, KeyState>, operation: nat, keys: set<Key>,
                                 objects': map<Ref, KeyState>) {
    && (forall r :: r in objects' <==> r in objects || (r.key in keys && r == RefOf(keyStates, r.key, operation)))
    && (forall r | r in objects' :: objects'[r] == ObjectOf(objects, r))
  }

  lemma NothingCaptured(keyStates: map<Key, Ref>, objects: map<Ref, KeyState>, operation: nat)
    ensures CapturedSoFar(keyStates, objects, operation, {}, keyStates, objects, map[])
  {
  }

  lemma {:induction false} AllCaptured(keyStates: map<Key, Ref>, objects: map<Ref, KeyState>, operation: nat, accesses: Accesses,
                                       known: map<Key, Ref>, objects': map<Ref, KeyState>, captured: map<Key, Ref>)
    requires forall k | k in keyStates :: keyStates[k].key == k && keyStates[k] in objects
    requires CapturedSoFar(keyStates, objects, operation, accesses.Keys, known, objects', captured)
    ensures captured == map k | k in accesses :: RefOf(keyStates, k, operation)
    ensures known == keyStates + captured
    ensures forall k | k in accesses :: captured[k] in objects'
    ensures forall r :: r in objects' <==> r in objects || (r.key in accesses && r == RefOf(keyStates, r.key, operation))
    ensures forall r | r in objects' :: objects'[r] == ObjectOf(objects, r)
  {
    assert forall k | k in accesses :: RefOf(keyStates, k, operation).key == k;
  }

  /** One key: its state is looked up or created, and captured. */
  method CaptureKey(ghost keyStates: map<Key, Ref>, ghost objects: map<Ref, KeyState>, operation: nat, ghost done: set<Key>,
                    known: map<Key, Ref>, objects': map<Ref, KeyState>, captured: map<Key, Ref>, key: Key)
    returns (nowKnown: map<Key, Ref>, nowObjects: map<Ref, KeyState>, nowCaptured: map<Key, Ref>, state: KeyState)
    requires forall k | k in keyStates :: keyStates[k].key == k && keyStates[k] in objects
    requires forall r | r in objects :: r.creator < operation
    requires CapturedSoFar(keyStates, objects, operation, done, known, objects', captured)
    ensures CapturedSoFar(keyStates, objects, operation, done + {key}, nowKnown, nowObjects, nowCaptured)
    ensures state == ObjectOf(objects, RefOf(keyStates, key, operation))
  {
    nowKnown, nowObjects := known, objects';
    if key !in known {
      nowKnown := known[key := Ref(key, operation)];
      nowObjects := objects'[Ref(key, operation) := KeyState(None, {})];
    }
    nowCaptured := captured[key := nowKnown[key]];
    CreatedOneMore(keyStates, objects, operation, done, objects', nowObjects, key);
    hide ObjectsCreated;
    state := nowObjects[nowKnown[key]];
  }

  lemma CreatedOneMore(keyStates: map<Key, Ref>, objects: map<Ref, KeyState>, operation: nat, keys: set<Key>,
                       objects': map<Ref, KeyState>, now: map<Ref, KeyState>, key: Key)
    requires forall k | k in keyStates :: keyStates[k].key == k && keyStates[k] in objects
    requires forall r | r in objects :: r.creator < operation
    requires ObjectsCreated(keyStates, objects, operation, keys, objects')
    requires now == if key in keyStates || key in keys then objects' else objects'[Ref(key, operation) := KeyState(None, {})]
    ensures ObjectsCreated(keyStates, objects, operation, keys + {key}, now)
    ensures RefOf(keyStates, key, operation) in now
    ensures now[RefOf(keyStates, key, operation)] == ObjectOf(objects, RefOf(keyStates, key, operation))
  {
  }

  /** Batch d is waited for because of one of the keys. */
  ghost predicate Awaited(keyStates: map<Key, Ref>, objects: map<Ref, KeyState>, accesses: Accesses, operation: nat,
                          keys: set<Key>, d: nat)
    requires keys <= accesses.Keys
  {
    exists k :: k in keys && AwaitedOn(keyStates, objects, accesses, operation, k, d)
  }

  predicate AwaitedOn(keyStates: map<Key, Ref>, objects: map<Ref, KeyState>, accesses: Accesses, operation: nat, k: Key, d: nat)
    requires k in accesses
  {
    d in WaitsOnKey(ObjectOf(objects, RefOf(keyStates, k, operation)), accesses[k])
  }

  lemma NothingAwaited(keyStates: map<Key, Ref>, objects: map<Ref, KeyState>, accesses: Accesses, operation: nat)
    ensures forall d :: !Awaited(keyStates, objects, accesses, operation, {}, d)
  {
  }

  lemma AwaitedOneMore(keyStates: map<Key, Ref>, objects: map<Ref, KeyState>, accesses: Accesses, operation: nat,
                       keys: set<Key>, key: Key)
    requires keys <= accesses.Keys && key in accesses
    ensures forall d :: Awaited(keyStates, objects, accesses, operation, keys + {key}, d)
                        <==> Awaited(keyStates, objects, accesses, operation, keys, d)
                             || AwaitedOn(keyStates, objects, accesses, operation, key, d)
  {
  }

  function RefOf(keyStates: map<Key, Ref>, k: Key, operation: nat): Ref {
    if k in keyStates then keyStates[k] else Ref(k, operation)
  }

  function ObjectOf(objects: map<Ref, KeyState>, r: Ref): KeyState {
    if r in objects then objects[r] else KeyState(None, {})
  }

  /** Mark the operation on the state object of each key. */
  method RegisterOperation(objects: map<Ref, KeyState>, keyStates: map<Key, Ref>, accesses: Accesses, operation: nat)
    returns (marked: map<Ref, KeyState>)
    requires forall k | k in accesses :: k in keyStates && keyStates[k].key == k && keyStates[k] in objects
    ensures marked.Keys == objects.Keys
    ensures forall r | r in objects ::
              marked[r] == if r.key in accesses && keyStates[r.key] == r
                           then Registered(objects[r], accesses[r.key], operation) else objects[r]
  {
    marked := objects;
    var todo := accesses.Keys;
    while todo != {}
      invariant todo <= accesses.Keys && marked.Keys == objects.Keys
      invariant forall r | r in objects ::
        marked[r] == if r.key in accesses && r.key !in todo && keyStates[r.key] == r
                     then Registered(objects[r], accesses[r.key], operation) else objects[r]
    {
      var key :| key in todo;
      var state := keyStates[key];
      marked := marked[state := Registered(marked[state], accesses[key], operation)];
      todo := todo - {key};
    }
  }

  /** Remove the marks of the operation, and forget the keys whose state has become unused. */
  method UnregisterOperation(objects: map<Ref, KeyState>, keyStates: map<Key, Ref>, captured: map<Key, Ref>,
                             accesses: Accesses, operation: nat)
    returns (marked: map<Ref, KeyState>, remaining: map<Key, Ref>)
    requires forall k | k in accesses :: k in captured && captured[k].key == k && captured[k] in objects
    ensures marked.Keys == objects.Keys
    ensures forall r | r in objects ::
              marked[r] == if r.key in accesses && captured[r.key] == r
                           then Unregistered(objects[r], accesses[r.key], operation) else objects[r]
    ensures remaining == map k | k in keyStates && !(k in accesses && keyStates[k] == captured[k] && Unused(marked[captured[k]]))
                         :: keyStates[k]
  {
    hide UnmarkedSoFar, RemainsWithout, Unregistered, Unused;
    marked, remaining := objects, keyStates;
    var todo := accesses.Keys;
    NothingUnmarked(objects, keyStates, captured, accesses, operation);
    assert accesses.Keys - todo == {};
    while todo != {}
      invariant todo <= accesses.Keys && marked.Keys == objects.Keys
      invariant UnmarkedSoFar(objects, captured, accesses, operation, accesses.Keys - todo, marked)
      invariant RemainsWithout(keyStates, captured, accesses.Keys - todo, marked, remaining)
    {
      var key :| key in todo;
      ghost var done := accesses.Keys - todo;
      ghost var before := marked;
      UnmarkOne(objects, captured, accesses, operation, done, marked, key);
      marked := marked[captured[key] := Unregistered(marked[captured[key]], accesses[key], operation)];
      remaining := ForgetUnused(keyStates, captured, done, before, marked, remaining, key);
      todo := todo - {key};
      assert accesses.Keys - todo == done + {key};
    }
    assert accesses.Keys - todo == accesses.Keys;
    AllUnmarked(objects, keyStates, captured, accesses, operation, marked, remaining);
  }

  /** The marks of the operation are gone from the states of these keys. */
  ghost predicate UnmarkedSoFar(objects: map<Ref, KeyState>, captured: map<Key, Ref>, accesses: Accesses, operation: nat,
                                keys: set<Key>, marked: map<Ref, KeyState>) {
    && marked.Keys == objects.Keys
    && forall r | r in objects ::
         marked[r] == if r.key in keys && r.key in accesses && r.key in captured && captured[r.key] == r
                      then Unregistered(objects[r], accesses[r.key], operation) else objects[r]
  }

  lemma NothingUnmarked(objects: map<Ref, KeyState>, keyStates: map<Key, Ref>, captured: map<Key, Ref>, accesses: Accesses, operation: nat)
    ensures UnmarkedSoFar(objects, captured, accesses, operation, {}, objects)
    ensures RemainsWithout(keyStates, captured, {}, objects, keyStates)
  {
  }

  lemma UnmarkOne(objects: map<Ref, KeyState>, captured: map<Key, Ref>, accesses: Accesses, operation: nat, keys: set<Key>,
                  marked: map<Ref, KeyState>, key: Key)
    requires UnmarkedSoFar(objects, captured, accesses, operation, keys, marked)
    requires key !in keys && key in accesses && key in captured && captured[key].key == key && captured[key] in objects
    ensures captured[key] in marked && marked.Keys == objects.Keys
    ensures UnmarkedSoFar(objects, captured, accesses, operation, keys + {key},
                          marked[captured[key] := Unregistered(marked[captured[key]], accesses[key], operation)])
  {
  }

  lemma AllUnmarked(objects: map<Ref, KeyState>, keyStates: map<Key, Ref>, captured: map<Key, Ref>, accesses: Accesses, operation: nat,
                    marked: map<Ref, KeyState>, remaining: map<Key, Ref>)
    requires forall k | k in accesses :: k in captured && captured[k] in objects
    requires UnmarkedSoFar(objects, captured, accesses, operation, accesses.Keys, marked)
    requires marked.Keys == objects.Keys && RemainsWithout(keyStates, captured, accesses.Keys, marked, remaining)
    ensures forall r | r in objects ::
              marked[r] == if r.key in accesses && captured[r.key] == r
                           then Unregistered(objects[r], accesses[r.key], operation) else objects[r]
    ensures remaining == map k | k in keyStates && !(k in accesses && keyStates[k] == captured[k] && Unused(marked[captured[k]]))
                         :: keyStates[k]
  {
  }

  /** The keys are left whose state was not one of these, or is still in use. */
  ghost predicate RemainsWithout(keyStates: map<Key, Ref>, captured: map<Key, Ref>, keys: set<Key>,
                                 marked: map<Ref, KeyState>, remaining: map<Key, Ref>)
    requires forall k | k in keys :: k in captured && captured[k] in marked
  {
    && (forall k :: k in remaining <==> k in keyStates && !(k in keys && keyStates[k] == captured[k] && Unused(marked[captured[k]])))
    && (forall k | k in remaining :: remaining[k] == keyStates[k])
  }

  method ForgetUnused(ghost keyStates: map<Key, Ref>, captured: map<Key, Ref>, ghost done: set<Key>,
                      ghost before: map<Ref, KeyState>, marked: map<Ref, KeyState>, remaining: map<Key, Ref>, key: Key)
    returns (left: map<Key, Ref>)
    requires forall k | k in done + {key} :: k in captured && captured[k].key == k && captured[k] in before
    requires key !in done && marked.Keys == before.Keys
    requires forall r | r in before && r != captured[key] :: marked[r] == before[r]
    requires RemainsWithout(keyStates, captured, done, before, remaining)
    ensures RemainsWithout(keyStates, captured, done + {key}, marked, left)
  {
    left := remaining;
    var state := captured[key];
    if Unused(marked[state]) && key in remaining && remaining[key] == state { left := remaining - {key}; }
  }

  lemma {:induction false} FlushedAs(before: State, count: nat, accesses: Accesses, objects: map<Ref, KeyState>, captured: map<Key, Ref>,
                  waits: set<nat>, marked: map<Ref, KeyState>)
    requires WellFormed(before) && count <= |before.pending|
    requires captured == map k | k in accesses :: RefOf(before.keyStates, k, |before.batches|)
    requires forall r :: r in objects <==>
               r in before.objects || (r.key in accesses && r == RefOf(before.keyStates, r.key, |before.batches|))
    requires forall r | r in objects :: objects[r] == ObjectOf(before.objects, r)
    requires forall d :: d in waits <==> Awaited(before.keyStates, before.objects, accesses, |before.batches|, accesses.Keys, d)
    requires marked.Keys == objects.Keys
    requires forall r | r in objects ::
               marked[r] == if r.key in accesses && captured[r.key] == r
                            then Registered(objects[r], accesses[r.key], |before.batches|) else objects[r]
    ensures captured == Captured(before, accesses)
    ensures waits == KeyDependencies(before, accesses, accesses.Keys)
    ensures marked == RegisteredObjects(before, accesses)
  {
    RefsMatch(before);
    assert captured == Captured(before, accesses);
    SameKeys(before, accesses, objects, captured);
    SameWaits(before, accesses, waits);
    SameMarks(before, accesses, objects, marked);
  }

  lemma {:induction false} RefsMatch(before: State)
    requires WellFormed(before)
    ensures forall k :: RefOf(before.keyStates, k, |before.batches|) == RefFor(before, k)
    ensures forall k :: RefFor(before, k).key == k
    ensures forall k :: ObjectOf(before.objects, RefOf(before.keyStates, k, |before.batches|)) == ObjectFor(before, k)
  {
    assert forall k :: Ref(k, |before.batches|) !in before.objects;
  }

  lemma {:induction false} SameMarks(before: State, accesses: Accesses, objects: map<Ref, KeyState>, marked: map<Ref, KeyState>)
    requires objects.Keys == before.objects.Keys + Captured(before, accesses).Values
    requires forall k :: ObjectOf(before.objects, RefFor(before, k)) == ObjectFor(before, k)
    requires forall r | r in objects :: objects[r] == ObjectOf(before.objects, r)
    requires marked.Keys == objects.Keys
    requires forall r | r in objects ::
               marked[r] == if r.key in accesses && RefFor(before, r.key) == r
                            then Registered(objects[r], accesses[r.key], |before.batches|) else objects[r]
    ensures marked == RegisteredObjects(before, accesses)
  {
    var expected := RegisteredObjects(before, accesses);
    assert marked.Keys == expected.Keys;
    forall r | r in expected
      ensures marked[r] == expected[r]
    {
      if r.key in accesses && RefFor(before, r.key) == r {
        assert ObjectOf(before.objects, RefFor(before, r.key)) == ObjectFor(before, r.key);
      }
    }
  }

  lemma {:induction false} SameKeys(before: State, accesses: Accesses, objects: map<Ref, KeyState>, captured: map<Key, Ref>)
    requires captured == Captured(before, accesses)
    requires forall k :: RefFor(before, k).key == k && RefOf(before.keyStates, k, |before.batches|) == RefFor(before, k)
    requires forall r :: r in objects <==>
               r in before.objects || (r.key in accesses && r == RefOf(before.keyStates, r.key, |before.batches|))
    ensures objects.Keys == before.objects.Keys + captured.Values
  {
    forall r
      ensures r in captured.Values <==> r.key in accesses && captured[r.key] == r
    {
      if r in captured.Values {
        var k :| k in captured && captured[k] == r;
      }
    }
  }

  lemma {:induction false} SameWaits(before: State, accesses: Accesses, waits: set<nat>)
    requires forall d :: d in waits <==> Awaited(before.keyStates, before.objects, accesses, |before.batches|, accesses.Keys, d)
    requires forall k :: ObjectOf(before.objects, RefOf(before.keyStates, k, |before.batches|)) == ObjectFor(before, k)
    ensures waits == KeyDependencies(before, accesses, accesses.Keys)
  {
    forall d
      ensures d in waits <==> d in KeyDependencies(before, accesses, accesses.Keys)
    {
      if d in waits {
        var k :| k in accesses.Keys && AwaitedOn(before.keyStates, before.objects, accesses, |before.batches|, k, d);
        assert d in WaitsOnKey(ObjectFor(before, k), accesses[k]);
      }
      if d in KeyDependencies(before, accesses, accesses.Keys) {
        var k :| k in accesses.Keys && d in WaitsOnKey(ObjectFor(before, k), accesses[k]);
        assert AwaitedOn(before.keyStates, before.objects, accesses, |before.batches|, k, d);
      }
    }
  }

  lemma {:induction false} SettledAs(before: State, operation: nat, marked: map<Ref, KeyState>, remaining: map<Key, Ref>)
    requires Inv(before) && Settleable(before, operation) && before.batches[operation].accesses.Some?
    requires var b := before.batches[operation];
      && marked.Keys == before.objects.Keys
      && (forall k | k in b.accesses.value :: k in b.captured && b.captured[k] in before.objects)
      && (forall r | r in before.objects ::
            marked[r] == if r.key in b.accesses.value && b.captured[r.key] == r
                         then Unregistered(before.objects[r], b.accesses.value[r.key], operation) else before.objects[r])
      && remaining == map k | k in before.keyStates
           && !(k in b.accesses.value && before.keyStates[k] == b.captured[k] && Unused(marked[b.captured[k]])) :: before.keyStates[k]
    ensures marked == UnregisteredObjects(before, operation)
    ensures remaining == Settle(before, operation).keyStates
  {
    assert marked == UnregisteredObjects(before, operation);
    forall k | k in before.keyStates
      ensures Dropped(before, marked, operation, k) <==>
              var b := before.batches[operation];
              k in b.accesses.value && before.keyStates[k] == b.captured[k] && Unused(marked[b.captured[k]])
    {
    }
  }

  lemma {:induction false} HeldObjects(before: State, operation: nat)
    requires Inv(before) && Settleable(before, operation) && before.batches[operation].accesses.Some?
    ensures forall k | k in before.batches[operation].accesses.value ::
              && k in before.batches[operation].captured && before.batches[operation].captured[k].key == k
              && before.batches[operation].captured[k] in before.objects
  {
    forall k | k in before.batches[operation].accesses.value
      ensures k in before.batches[operation].captured && before.batches[operation].captured[k].key == k
      ensures before.batches[operation].captured[k] in before.objects
    {
      assert StillGuarded(before, operation, k);
    }
  }
}
