/** Exactly what a batch waits for: the marks on the state of a key name the batches in flight that
    wrote it last and have read it since, and nothing else. */
module BatchWaits {
  import opened Wrappers
  import opened OrderingPlan
  import opened CrossBatchOrdering

  predicate InFlight(s: State, d: nat) {
    d < |s.batches| && d !in s.settled
  }

  predicate Unclassified(batches: seq<Batch>, d: nat) {
    d < |batches| && batches[d].accesses.None?
  }

  /** Batch d is classified, and this is its strongest access to the key. */
  predicate AccessesKey(batches: seq<Batch>, d: nat, k: Key, access: Access) {
    d < |batches| && batches[d].accesses.Some? && k in batches[d].accesses.value && batches[d].accesses.value[k] == access
  }

  ghost predicate NoWriter(batches: seq<Batch>, from: nat, to: nat, k: Key) {
    forall m: nat | from < m < to :: !AccessesKey(batches, m, k, Write)
  }

  ghost predicate NoUnclassified(batches: seq<Batch>, from: nat, to: nat) {
    forall m: nat | from < m < to :: !Unclassified(batches, m)
  }

  /** Batch d is the last before batch j that j must not overtake, for some reason: an unclassified
      batch overtakes nothing, a classified one neither the last unclassified one nor, on any key, a
      batch it conflicts with there unless a later batch has written that key. */
  ghost predicate ConflictsDirectly(batches: seq<Batch>, d: nat, j: nat) {
    && d < j < |batches|
    && (|| Unclassified(batches, j)
        || (Unclassified(batches, d) && NoUnclassified(batches, d, j))
        || exists k :: ConflictsOn(batches, d, j, k))
  }

  ghost predicate ConflictsOn(batches: seq<Batch>, d: nat, j: nat, k: Key) {
    && (AccessesKey(batches, d, k, Write) || AccessesKey(batches, d, k, Read))
    && (AccessesKey(batches, j, k, Write) || (AccessesKey(batches, j, k, Read) && AccessesKey(batches, d, k, Write)))
    && NoWriter(batches, d, j, k)
  }

  // ----- The invariant -----

  ghost predicate WriteMarkExact(s: State, k: Key, d: nat) {
    ObjectFor(s, k).lastWrite == Some(d)
    <==> InFlight(s, d) && AccessesKey(s.batches, d, k, Write) && NoWriter(s.batches, d, |s.batches|, k)
  }

  ghost predicate ReadMarkExact(s: State, k: Key, d: nat) {
    d in ObjectFor(s, k).openReads
    <==> InFlight(s, d) && AccessesKey(s.batches, d, k, Read) && NoWriter(s.batches, d, |s.batches|, k)
  }

  ghost predicate TailExact(s: State, d: nat) {
    s.globalTail == Some(d) <==> InFlight(s, d) && Unclassified(s.batches, d) && NoUnclassified(s.batches, d, |s.batches|)
  }

  ghost predicate MarksExact(s: State) {
    && (forall k, d: nat :: WriteMarkExact(s, k, d))
    && (forall k, d: nat :: ReadMarkExact(s, k, d))
    && (forall d: nat :: TailExact(s, d))
  }

  /** No state is kept for a key that nobody in flight has marked. */
  ghost predicate StatesInUse(s: State) {
    forall k | k in s.keyStates :: !Unused(ObjectFor(s, k))
  }

  /** Flushing more batches changes nothing about those before. */
  lemma SameBefore(before: seq<Batch>, after: seq<Batch>)
    requires before <= after
    ensures forall m: nat, k, access | m < |before| :: AccessesKey(after, m, k, access) <==> AccessesKey(before, m, k, access)
    ensures forall m: nat | m < |before| :: Unclassified(after, m) <==> Unclassified(before, m)
  {
  }

  lemma {:induction false} NoWriterOnceMore(batches: seq<Batch>, b: Batch, from: nat, k: Key)
    requires from < |batches|
    ensures NoWriter(batches + [b], from, |batches| + 1, k)
            <==> NoWriter(batches, from, |batches|, k) && !AccessesKey(batches + [b], |batches|, k, Write)
  {
    SameBefore(batches, batches + [b]);
    hide AccessesKey;
  }

  lemma {:induction false} NoUnclassifiedOnceMore(batches: seq<Batch>, b: Batch, from: nat)
    requires from < |batches|
    ensures NoUnclassified(batches + [b], from, |batches| + 1)
            <==> NoUnclassified(batches, from, |batches|) && b.accesses.Some?
  {
    SameBefore(batches, batches + [b]);
    assert Unclassified(batches + [b], |batches|) <==> b.accesses.None?;
    hide Unclassified;
  }

  /** What a flush does to the state of a key. */
  lemma {:induction false} FlushAtAnyKey(s: State, count: nat, accesses: Option<Accesses>, k: Key)
    requires WellFormed(s) && count <= |s.pending|
    ensures var t := Flush(s, count, accesses);
            ObjectFor(t, k) == if accesses.Some? && k in accesses.value then Registered(ObjectFor(s, k), accesses.value[k], |s.batches|)
                               else ObjectFor(s, k)
  {
    if accesses.Some? {
      if k in accesses.value {
        FlushedObject(s, accesses.value, k);
      } else if k in s.keyStates {
        UntouchedObject(s, accesses.value, k);
      }
    }
  }

  lemma {:induction false} FlushKeepsMarks(s: State, count: nat, accesses: Option<Accesses>)
    requires Inv(s) && MarksExact(s) && StatesInUse(s) && count <= |s.pending|
    ensures MarksExact(Flush(s, count, accesses)) && StatesInUse(Flush(s, count, accesses))
  {
    var t, n := Flush(s, count, accesses), |s.batches|;
    var b := t.batches[n];
    FlushedBatch(s, count, accesses);
    forall k
      ensures forall d: nat :: WriteMarkExact(t, k, d) && ReadMarkExact(t, k, d)
      ensures k in t.keyStates ==> !Unused(ObjectFor(t, k))
    {
      FlushAtAnyKey(s, count, accesses, k);
      forall d: nat
        ensures WriteMarkExact(t, k, d) && ReadMarkExact(t, k, d)
      {
        FlushKeepsMark(s, t, accesses, b, k, d);
      }
      FlushedKeys(s, count, accesses, k);
    }
    forall d: nat
      ensures TailExact(t, d)
    {
      assert TailExact(s, d);
      if d < n { NoUnclassifiedOnceMore(s.batches, b, d); }
    }
  }

  lemma {:induction false} FlushedBatch(s: State, count: nat, accesses: Option<Accesses>)
    requires Inv(s) && count <= |s.pending|
    ensures var t, n := Flush(s, count, accesses), |s.batches|;
            && t.batches == s.batches + [t.batches[n]] && t.batches[n].accesses == accesses && t.settled == s.settled
            && n !in s.settled && t.globalTail == (if accesses.None? then Some(n) else s.globalTail)
  {
  }

  lemma FlushedKeys(s: State, count: nat, accesses: Option<Accesses>, k: Key)
    requires count <= |s.pending|
    ensures k in Flush(s, count, accesses).keyStates <==> k in s.keyStates || (accesses.Some? && k in accesses.value)
  {
  }

  lemma {:induction false} FlushKeepsMark(s: State, t: State, accesses: Option<Accesses>, b: Batch, k: Key, d: nat)
    requires WriteMarkExact(s, k, d) && ReadMarkExact(s, k, d)
    requires t.batches == s.batches + [b] && b.accesses == accesses && t.settled == s.settled && |s.batches| !in s.settled
    requires ObjectFor(t, k) == if accesses.Some? && k in accesses.value then Registered(ObjectFor(s, k), accesses.value[k], |s.batches|)
                                else ObjectFor(s, k)
    ensures WriteMarkExact(t, k, d) && ReadMarkExact(t, k, d)
  {
    hide ObjectFor;
    if d < |s.batches| {
      NoWriterOnceMore(s.batches, b, d, k);
      assert t.batches[d] == s.batches[d];
      hide NoWriter;
    }
  }

  /** What the completion handler of a batch does to the state of a key. */
  lemma {:induction false} SettleAtKey(s: State, id: nat, k: Key)
    requires Inv(s) && Settleable(s, id)
    ensures var t, accesses := Settle(s, id), s.batches[id].accesses;
            && ObjectFor(t, k) == (if accesses.Some? && k in accesses.value then Unregistered(ObjectFor(s, k), accesses.value[k], id)
                                   else ObjectFor(s, k))
            && (k in t.keyStates ==> k in s.keyStates)
            && (accesses.Some? && k in accesses.value && k in t.keyStates ==> !Unused(ObjectFor(t, k)))
  {
    hide GuardsUnclassified, SentAfterDependencies, ConflictsOrdered, AccessesPlanned, UnregisteredObjects, Dropped;
    var accesses := s.batches[id].accesses;
    if accesses.Some? {
      if k in accesses.value {
        assert StillGuarded(s, id, k);
        SettleAtOwnKey(s, id, k);
      } else if k in s.keyStates {
        SettleAtOtherKey(s, id, k);
      }
    }
  }

  lemma {:induction false} SettleAtOwnKey(s: State, id: nat, k: Key)
    requires WellFormed(s) && id < |s.batches| && s.batches[id].accesses.Some? && k in s.batches[id].accesses.value
    requires k in s.batches[id].captured && k in s.keyStates && s.keyStates[k] == s.batches[id].captured[k]
    ensures var t := Settle(s, id);
            && ObjectFor(t, k) == Unregistered(ObjectFor(s, k), s.batches[id].accesses.value[k], id)
            && (k in t.keyStates ==> !Unused(ObjectFor(t, k)))
  {
    hide Unregistered, Backward;
    assert UnregisteredObjects(s, id)[s.keyStates[k]] == Unregistered(ObjectFor(s, k), s.batches[id].accesses.value[k], id);
  }

  lemma {:induction false} SettleAtOtherKey(s: State, id: nat, k: Key)
    requires WellFormed(s) && id < |s.batches| && s.batches[id].accesses.Some? && k !in s.batches[id].accesses.value
    requires k in s.keyStates
    ensures ObjectFor(Settle(s, id), k) == ObjectFor(s, k)
  {
    hide Unregistered, Backward;
    assert s.keyStates[k].key == k;
    assert UnregisteredObjects(s, id)[s.keyStates[k]] == ObjectFor(s, k);
    assert !Dropped(s, UnregisteredObjects(s, id), id, k);
  }

  lemma {:induction false} SettleKeepsMarks(s: State, id: nat)
    requires Inv(s) && MarksExact(s) && StatesInUse(s) && Settleable(s, id)
    ensures MarksExact(Settle(s, id)) && StatesInUse(Settle(s, id))
  {
    var t := Settle(s, id);
    SettledBatches(s, id);
    forall k
      ensures forall d: nat :: WriteMarkExact(t, k, d) && ReadMarkExact(t, k, d)
      ensures k in t.keyStates ==> !Unused(ObjectFor(t, k))
    {
      SettleAtKey(s, id, k);
      forall d: nat
        ensures WriteMarkExact(t, k, d) && ReadMarkExact(t, k, d)
      {
        assert WriteMarkExact(s, k, id) && ReadMarkExact(s, k, id);
        assert WriteMarkExact(s, k, d) && ReadMarkExact(s, k, d);
        SettleKeepsMark(s, t, id, k, d);
      }
    }
    forall d: nat
      ensures TailExact(t, d)
    {
      assert TailExact(s, d) && TailExact(s, id);
    }
  }

  lemma SettledBatches(s: State, id: nat)
    requires id < |s.batches|
    ensures var t := Settle(s, id);
            && t.batches == s.batches && t.settled == s.settled + {id}
            && t.globalTail == (if s.batches[id].accesses.None? && s.globalTail == Some(id) then None else s.globalTail)
  {
    hide UnregisteredObjects, Dropped;
  }

  lemma {:induction false} SettleKeepsMark(s: State, t: State, id: nat, k: Key, d: nat)
    requires id < |s.batches| && t.batches == s.batches && t.settled == s.settled + {id}
    requires WriteMarkExact(s, k, d) && ReadMarkExact(s, k, d) && WriteMarkExact(s, k, id) && ReadMarkExact(s, k, id)
    requires var accesses := s.batches[id].accesses;
             ObjectFor(t, k) == if accesses.Some? && k in accesses.value then Unregistered(ObjectFor(s, k), accesses.value[k], id)
                                else ObjectFor(s, k)
    ensures WriteMarkExact(t, k, d) && ReadMarkExact(t, k, d)
  {
    hide ObjectFor, NoWriter;
  }

  lemma {:induction false} StepKeepsMarks(s: State, s': State)
    requires Inv(s) && MarksExact(s) && StatesInUse(s) && Step(s, s')
    ensures MarksExact(s') && StatesInUse(s')
  {
    if FlushStep(s, s') {
      hide MarksExact, StatesInUse, Inv;
      var count: nat, accesses :| 0 < count <= |s.pending| && PlannedAccesses(s.pending[..count], accesses)
                                  && s' == Flush(s, count, accesses);
      FlushKeepsMarks(s, count, accesses);
    } else if SettleStep(s, s') {
      hide MarksExact, StatesInUse, Inv;
      var id :| Settleable(s, id) && s' == Settle(s, id);
      SettleKeepsMarks(s, id);
    } else {
      SameMarks(s, s');
    }
  }

  lemma {:induction false} SameMarks(s: State, s': State)
    requires MarksExact(s) && StatesInUse(s) && (SubmitStep(s, s') || SendStep(s, s'))
    ensures MarksExact(s') && StatesInUse(s')
  {
    assert s' == s.(pending := s'.pending, sent := s'.sent);
    forall k
      ensures ObjectFor(s', k) == ObjectFor(s, k)
    {
    }
    forall k, d: nat
      ensures WriteMarkExact(s', k, d) && ReadMarkExact(s', k, d)
    {
      assert WriteMarkExact(s, k, d) && ReadMarkExact(s, k, d);
    }
    forall d: nat
      ensures TailExact(s', d)
    {
      assert TailExact(s, d);
    }
  }

  lemma InitialMarks()
    ensures MarksExact(INITIAL) && StatesInUse(INITIAL)
  {
  }

  lemma {:induction false} RunKeepsMarks(run: seq<State>, t: nat)
    requires IsRun(run) && t < |run|
    ensures MarksExact(run[t]) && StatesInUse(run[t])
  {
    if t > 0 {
      RunKeepsMarks(run, t - 1);
      RunKeepsInv(run, t - 1);
      hide MarksExact, StatesInUse, Inv, Step;
      StepKeepsMarks(run[t - 1], run[t]);
    } else {
      InitialMarks();
    }
  }

  // ----- The guarantees of every run -----

  /** In every state of every run, the batch that is flushed next waits for exactly the batches in
      flight that it conflicts with directly: reads of a key do not wait for one another, and
      nothing waits for a batch that has settled. */
  lemma {:induction false} FlushWaitsExactly(run: seq<State>, t: nat, count: nat, accesses: Option<Accesses>, d: nat)
    requires IsRun(run) && t < |run| && count <= |run[t].pending|
    ensures var s, batches := run[t], Flush(run[t], count, accesses).batches;
            && |batches| == |s.batches| + 1
            && (d in batches[|s.batches|].dependencies
                <==> d < |s.batches| && d !in s.settled && ConflictsDirectly(batches, d, |s.batches|))
  {
    RunKeepsMarks(run, t);
    RunKeepsInv(run, t);
    var s, u := run[t], Flush(run[t], count, accesses);
    FlushedBatch(s, count, accesses);
    if accesses.Some? {
      TailWaits(s, u.batches, d);
      KeyWaits(s, u.batches, accesses.value, d);
    }
  }

  lemma {:induction false} TailWaits(s: State, batches: seq<Batch>, d: nat)
    requires MarksExact(s) && |batches| == |s.batches| + 1 && batches == s.batches + [batches[|s.batches|]]
    ensures d in AsSet(s.globalTail) <==> InFlight(s, d) && Unclassified(batches, d) && NoUnclassified(batches, d, |s.batches|)
  {
    assert TailExact(s, d);
    SameBefore(s.batches, batches);
    hide Unclassified;
  }

  lemma {:induction false} KeyWaits(s: State, batches: seq<Batch>, accesses: Accesses, d: nat)
    requires MarksExact(s) && |batches| == |s.batches| + 1 && batches == s.batches + [batches[|s.batches|]]
    requires batches[|s.batches|].accesses == Some(accesses)
    ensures d in KeyDependencies(s, accesses, accesses.Keys)
            <==> InFlight(s, d) && exists k :: ConflictsOn(batches, d, |s.batches|, k)
  {
    if d in KeyDependencies(s, accesses, accesses.Keys) {
      var k :| k in accesses && d in WaitsOnKey(ObjectFor(s, k), accesses[k]);
      KeyWaitsOn(s, batches, accesses, d, k);
    }
    if InFlight(s, d) && exists k :: ConflictsOn(batches, d, |s.batches|, k) {
      var k :| ConflictsOn(batches, d, |s.batches|, k);
      KeyWaitsOn(s, batches, accesses, d, k);
    }
  }

  lemma {:induction false} KeyWaitsOn(s: State, batches: seq<Batch>, accesses: Accesses, d: nat, k: Key)
    requires MarksExact(s) && |batches| == |s.batches| + 1 && batches == s.batches + [batches[|s.batches|]]
    requires batches[|s.batches|].accesses == Some(accesses) && k in accesses
    ensures d in WaitsOnKey(ObjectFor(s, k), accesses[k]) <==> InFlight(s, d) && ConflictsOn(batches, d, |s.batches|, k)
  {
    assert WriteMarkExact(s, k, d) && ReadMarkExact(s, k, d);
    SameBefore(s.batches, batches);
    assert NoWriter(batches, d, |s.batches|, k) <==> NoWriter(s.batches, d, |s.batches|, k);
    assert AccessesKey(batches, |s.batches|, k, accesses[k]);
    hide NoWriter, ObjectFor;
  }

  ghost predicate WaitsJustified(batches: seq<Batch>) {
    forall j: nat, d: nat | j < |batches| && d in batches[j].dependencies :: ConflictsDirectly(batches, d, j)
  }

  /** Over every run: a batch waits only for earlier batches that it conflicts with directly. */
  lemma {:induction false} WaitsAreConflicts(run: seq<State>, t: nat)
    requires IsRun(run) && t < |run|
    ensures WaitsJustified(run[t].batches)
    ensures forall j: nat, d: nat | j < |run[t].batches| && d in run[t].batches[j].dependencies ::
              d < j && BatchConflict(run[t].batches[d], run[t].batches[j])
  {
    JustifiedInRun(run, t);
    forall j: nat, d: nat | j < |run[t].batches| && d in run[t].batches[j].dependencies
      ensures d < j && BatchConflict(run[t].batches[d], run[t].batches[j])
    {
      DirectIsConflict(run[t].batches, d, j);
    }
  }

  lemma {:induction false} DirectIsConflict(batches: seq<Batch>, d: nat, j: nat)
    requires ConflictsDirectly(batches, d, j)
    ensures BatchConflict(batches[d], batches[j])
  {
    if batches[d].accesses.Some? && batches[j].accesses.Some? {
      var k :| ConflictsOn(batches, d, j, k);
      assert KeyConflict(batches[d].accesses.value, batches[j].accesses.value, k);
    }
  }

  lemma {:induction false} JustifiedInRun(run: seq<State>, t: nat)
    requires IsRun(run) && t < |run|
    ensures WaitsJustified(run[t].batches)
  {
    if t > 0 {
      JustifiedInRun(run, t - 1);
      var s, u := run[t - 1], run[t];
      assert Step(s, u);
      if FlushStep(s, u) {
        hide Step, Inv, Dependencies, Captured, PlannedAccesses, WaitsJustified;
        var count: nat, accesses :| 0 < count <= |s.pending| && PlannedAccesses(s.pending[..count], accesses)
                                    && u == Flush(s, count, accesses);
        RunKeepsInv(run, t - 1);
        FlushedBatch(s, count, accesses);
        forall d: nat | d in u.batches[|s.batches|].dependencies
          ensures ConflictsDirectly(u.batches, d, |s.batches|)
        {
          FlushWaitsExactly(run, t - 1, count, accesses, d);
        }
        JustifiedOnceMore(s.batches, u.batches);
      } else {
        SameBatches(s, u);
      }
    }
  }

  lemma SameBatches(s: State, u: State)
    requires Step(s, u) && !FlushStep(s, u)
    ensures u.batches == s.batches
  {
    hide FlushStep, UnregisteredObjects, Dropped, Sendable;
  }

  lemma {:induction false} JustifiedOnceMore(before: seq<Batch>, after: seq<Batch>)
    requires WaitsJustified(before) && |after| == |before| + 1 && after == before + [after[|before|]]
    requires forall d: nat | d in after[|before|].dependencies :: ConflictsDirectly(after, d, |before|)
    ensures WaitsJustified(after)
  {
    forall j: nat, d: nat | j < |after| && d in after[j].dependencies
      ensures ConflictsDirectly(after, d, j)
    {
      if j < |before| {
        assert after[j] == before[j] && ConflictsDirectly(before, d, j);
        DirectExtended(before, after, d, j);
      }
    }
  }

  lemma {:induction false} DirectExtended(before: seq<Batch>, after: seq<Batch>, d: nat, j: nat)
    requires ConflictsDirectly(before, d, j) && |after| == |before| + 1 && after == before + [after[|before|]]
    ensures ConflictsDirectly(after, d, j)
  {
    SameBefore(before, after);
    hide AccessesKey, Unclassified;
    if exists k :: ConflictsOn(before, d, j, k) {
      var k :| ConflictsOn(before, d, j, k);
      assert ConflictsOn(after, d, j, k);
    }
  }

  /** When every batch has settled, nothing is left behind. */
  lemma {:induction false} NothingLeftBehind(run: seq<State>, t: nat)
    requires IsRun(run) && t < |run| && forall j: nat | j < |run[t].batches| :: j in run[t].settled
    ensures run[t].keyStates == map[] && run[t].globalTail == None && run[t].inFlight == {}
  {
    RunKeepsMarks(run, t);
    RunKeepsInv(run, t);
    var s := run[t];
    forall k
      ensures k !in s.keyStates
    {
      UnmarkedState(s, k);
    }
    forall d: nat
      ensures s.globalTail != Some(d)
    {
      assert TailExact(s, d);
    }
  }

  lemma {:induction false} UnmarkedState(s: State, k: Key)
    requires MarksExact(s) && forall j: nat | j < |s.batches| :: j in s.settled
    ensures Unused(ObjectFor(s, k))
  {
    var st := ObjectFor(s, k);
    forall d: nat
      ensures st.lastWrite != Some(d) && d !in st.openReads
    {
      assert WriteMarkExact(s, k, d) && ReadMarkExact(s, k, d);
    }
  }
}
