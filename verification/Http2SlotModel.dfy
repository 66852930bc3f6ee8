/** The slots of one HTTP/2 session, as values: a first-come first-served queue of waiters under a
    limit that the peer announces (section 5.1.2 of RFC 9113). */
module Http2SlotModel {
  import opened Wrappers

  datatype Outcome = Granted | Aborted | Retired

  /** Requests are numbered as they come. `outcomes` are the settled ones, `held` the granted ones
      whose slot has not been released; `fired` are the idle callbacks called. */
  datatype Slots = Slots(limit: Option<nat>, retired: bool, waiting: seq<nat>, held: set<nat>,
                         outcomes: map<nat, Outcome>, issued: nat, idle: Option<nat>, fired: seq<nat>)
  {
    predicate HasRoom() {
      !retired && limit.Some? && |held| < limit.value
    }
  }

  function Grant(s: Slots, request: nat): Slots {
    s.(held := s.held + {request}, outcomes := s.outcomes[request := Granted])
  }

  /** Grant slots to the oldest waiters while there is room. */
  function Drain(s: Slots): Slots
    decreases |s.waiting|
  {
    if s.HasRoom() && s.waiting != [] then Drain(Grant(s, s.waiting[0]).(waiting := s.waiting[1..])) else s
  }

  function Acquire(s: Slots, aborted: bool): Slots {
    var request, t := s.issued, s.(issued := s.issued + 1);
    if aborted then t.(outcomes := t.outcomes[request := Aborted])
    else if s.retired then t.(outcomes := t.outcomes[request := Retired])
    else if s.HasRoom() then Grant(t, request)
    else t.(waiting := t.waiting + [request])
  }

  function Without(q: seq<nat>, r: nat): (w: seq<nat>)
    ensures forall x :: x in w <==> x in q && x != r
  {
    if q == [] then []
    else
      assert forall x :: x in q <==> x == q[0] || x in q[1..];
      if q[0] == r then Without(q[1..], r) else [q[0]] + Without(q[1..], r)
  }

  /** The signal of a request aborts; a settled request ignores it. */
  function Abort(s: Slots, request: nat): Slots {
    if request !in s.waiting then s
    else s.(waiting := Without(s.waiting, request), outcomes := s.outcomes[request := Aborted])
  }

  function UpdateLimit(s: Slots, limit: nat): Slots {
    if s.retired then s else Drain(s.(limit := Some(limit)))
  }

  function RetireAll(outcomes: map<nat, Outcome>, waiting: seq<nat>): map<nat, Outcome>
    decreases |waiting|
  {
    if waiting == [] then outcomes else RetireAll(outcomes[waiting[0] := Retired], waiting[1..])
  }

  function Retire(s: Slots): Slots {
    if s.retired then s else s.(retired := true, waiting := [], outcomes := RetireAll(s.outcomes, s.waiting))
  }

  function FireIfIdle(s: Slots): Slots {
    if s.held == {} && s.idle.Some? then s.(idle := None, fired := s.fired + [s.idle.value]) else s
  }

  /** A slot is released; releasing it again does nothing. */
  function Release(s: Slots, request: nat): Slots {
    if request !in s.held then s else FireIfIdle(Drain(s.(held := s.held - {request})))
  }

  function WhenIdle(s: Slots, callback: nat): Slots {
    if s.held == {} then s.(fired := s.fired + [callback]) else s.(idle := Some(callback))
  }

  datatype Step = AcquireStep(aborted: bool) | AbortStep(request: nat) | LimitStep(limit: nat) | RetireStep
                | ReleaseStep(request: nat) | WhenIdleStep(callback: nat)

  function Apply(s: Slots, step: Step): Slots {
    match step
    case AcquireStep(aborted) => Acquire(s, aborted)
    case AbortStep(request) => Abort(s, request)
    case LimitStep(limit) => UpdateLimit(s, limit)
    case RetireStep => Retire(s)
    case ReleaseStep(request) => Release(s, request)
    case WhenIdleStep(callback) => WhenIdle(s, callback)
  }

  const INITIAL := Slots(None, false, [], {}, map[], 0, None, [])

  predicate InOrder(q: seq<nat>) {
    forall i, j | 0 <= i < j < |q| :: q[i] < q[j]
  }

  /** Every request is either waiting or settled, never both; slots are held by granted requests
      only; the queue is in the order of arrival. */
  ghost predicate Accounts(waiting: seq<nat>, held: set<nat>, outcomes: map<nat, Outcome>, issued: nat) {
    && InOrder(waiting)
    && (forall r: nat :: r < issued <==> r in waiting || r in outcomes)
    && (forall r | r in waiting :: r !in outcomes)
    && forall r | r in held :: r in outcomes && outcomes[r] == Granted
  }

  ghost predicate Accounted(s: Slots) {
    Accounts(s.waiting, s.held, s.outcomes, s.issued)
  }

  /** No one waits while there is room, or after the session has been retired; an idle callback is
      kept only while something is held. */
  predicate Settled(s: Slots) {
    && (s.HasRoom() ==> s.waiting == [])
    && (s.retired ==> s.waiting == [])
    && (s.idle.Some? ==> s.held != {})
  }

  ghost predicate Valid(s: Slots) {
    Accounted(s) && Settled(s)
  }

  lemma {:induction false} DrainKeeps(s: Slots)
    requires Accounted(s) && (s.retired ==> s.waiting == [])
    ensures Accounted(Drain(s)) && (Drain(s).HasRoom() ==> Drain(s).waiting == []) && (s.retired ==> Drain(s) == s)
    ensures Drain(s) == s.(waiting := Drain(s).waiting, held := Drain(s).held, outcomes := Drain(s).outcomes)
    ensures s.held <= Drain(s).held
    decreases |s.waiting|
  {
    if s.HasRoom() && s.waiting != [] {
      var t := Grant(s, s.waiting[0]).(waiting := s.waiting[1..]);
      HeadGranted(s);
      DrainKeeps(t);
    }
  }

  lemma {:induction false} HeadGranted(s: Slots)
    requires Accounted(s) && s.waiting != []
    ensures Accounted(Grant(s, s.waiting[0]).(waiting := s.waiting[1..]))
  {
    var head, rest := s.waiting[0], s.waiting[1..];
    assert s.waiting == [head] + rest;
    assert forall r :: r in s.waiting <==> r == head || r in rest;
    assert head !in rest;
  }

  /** Draining serves the oldest waiters and takes the slots in use no higher than the limit. */
  lemma {:induction false} DrainServesOldest(s: Slots)
    requires Accounted(s)
    ensures exists n: nat :: n <= |s.waiting| && Drain(s).waiting == s.waiting[n..]
                             && (forall i | 0 <= i < n :: s.waiting[i] in Drain(s).held)
                             && |Drain(s).held| == |s.held| + n && (n > 0 ==> s.limit.Some? && |s.held| + n <= s.limit.value)
    decreases |s.waiting|
  {
    if s.HasRoom() && s.waiting != [] {
      var t := Grant(s, s.waiting[0]).(waiting := s.waiting[1..]);
      HeadGranted(s);
      assert s.waiting[0] !in s.held;
      DrainServesOldest(t);
      DrainGrows(t);
      var n: nat :| n <= |t.waiting| && Drain(t).waiting == t.waiting[n..] && (forall i | 0 <= i < n :: t.waiting[i] in Drain(t).held)
                    && |Drain(t).held| == |t.held| + n && (n > 0 ==> t.limit.Some? && |t.held| + n <= t.limit.value);
      assert t.waiting[n..] == s.waiting[n + 1..];
      forall i | 0 <= i < n + 1
        ensures s.waiting[i] in Drain(s).held
      {
        if i > 0 { assert s.waiting[i] == t.waiting[i - 1]; }
      }
    } else {
      assert s.waiting[0..] == s.waiting;
    }
  }

  lemma {:induction false} DrainGrows(s: Slots)
    ensures s.held <= Drain(s).held
    decreases |s.waiting|
  {
    if s.HasRoom() && s.waiting != [] { DrainGrows(Grant(s, s.waiting[0]).(waiting := s.waiting[1..])); }
  }

  lemma {:induction false} AcquireKeepsValid(s: Slots, aborted: bool)
    requires Valid(s)
    ensures Valid(Acquire(s, aborted))
  {
    var t := Acquire(s, aborted);
    assert forall r :: r in t.waiting ==> r in s.waiting || r == s.issued;
    assert forall i | 0 <= i < |s.waiting| :: s.waiting[i] in s.waiting;
  }

  lemma {:induction false} WithoutKeepsOrder(q: seq<nat>, r: nat)
    requires InOrder(q)
    ensures InOrder(Without(q, r))
  {
    if q != [] {
      var rest := Without(q[1..], r);
      WithoutKeepsOrder(q[1..], r);
      hide Without;
      forall i | 0 <= i < |rest|
        ensures q[0] < rest[i]
      {
        assert rest[i] in q[1..];
      }
    }
  }

  lemma {:induction false} AbortKeepsValid(s: Slots, request: nat)
    requires Valid(s)
    ensures Valid(Abort(s, request))
  {
    WithoutKeepsOrder(s.waiting, request);
    if request in s.waiting {
      assert request < s.issued;
    }
  }

  lemma {:induction false} RetiredAll(outcomes: map<nat, Outcome>, waiting: seq<nat>)
    ensures forall r :: r in RetireAll(outcomes, waiting) <==> r in outcomes || r in waiting
    ensures forall r | r in RetireAll(outcomes, waiting) ::
              RetireAll(outcomes, waiting)[r] == if r in waiting then Retired else outcomes[r]
    decreases |waiting|
  {
    if waiting != [] {
      RetiredAll(outcomes[waiting[0] := Retired], waiting[1..]);
      assert forall r :: r in waiting <==> r == waiting[0] || r in waiting[1..];
    }
  }

  lemma {:induction false} RetireKeepsValid(s: Slots)
    requires Valid(s)
    ensures Valid(Retire(s))
    ensures forall r: nat | r < s.issued :: r in Retire(s).outcomes
  {
    RetiredAll(s.outcomes, s.waiting);
  }

  lemma {:induction false} ReleaseKeepsValid(s: Slots, request: nat)
    requires Valid(s)
    ensures Valid(Release(s, request))
  {
    if request in s.held {
      DrainKeeps(s.(held := s.held - {request}));
    }
  }

  lemma {:induction false} StepKeepsValid(s: Slots, step: Step)
    requires Valid(s)
    ensures Valid(Apply(s, step))
  {
    match step
    case AcquireStep(aborted) => AcquireKeepsValid(s, aborted);
    case AbortStep(request) => AbortKeepsValid(s, request);
    case LimitStep(limit) => DrainKeeps(s.(limit := Some(limit)));
    case RetireStep => RetireKeepsValid(s);
    case ReleaseStep(request) => ReleaseKeepsValid(s, request);
    case WhenIdleStep(callback) =>
  }

  function Run(s: Slots, steps: seq<Step>): Slots
    decreases |steps|
  {
    if steps == [] then s else Run(Apply(s, steps[0]), steps[1..])
  }

  /** Over every run: each request is waiting or settled once, no one waits while a slot is free,
      and the slots in use are the granted ones that have not been released. */
  lemma {:induction false} RunKeepsValid(s: Slots, steps: seq<Step>)
    requires Valid(s)
    ensures Valid(Run(s, steps))
    decreases |steps|
  {
    if steps != [] {
      StepKeepsValid(s, steps[0]);
      RunKeepsValid(Apply(s, steps[0]), steps[1..]);
    }
  }

  lemma {:induction false} DrainKeepsOutcomes(s: Slots)
    requires Accounted(s)
    ensures forall r | r in s.outcomes :: r in Drain(s).outcomes && Drain(s).outcomes[r] == s.outcomes[r]
    ensures forall r | r in Drain(s).outcomes && r !in s.outcomes :: Drain(s).outcomes[r] == Granted && r in Drain(s).held
    decreases |s.waiting|
  {
    if s.HasRoom() && s.waiting != [] {
      HeadGranted(s);
      assert s.waiting[0] in s.waiting;
      DrainGrows(Grant(s, s.waiting[0]).(waiting := s.waiting[1..]));
      DrainKeepsOutcomes(Grant(s, s.waiting[0]).(waiting := s.waiting[1..]));
    }
  }

  /** No request has been granted since. */
  predicate NoneGranted(s: Slots, t: Slots) {
    forall r | r in t.outcomes && t.outcomes[r] == Granted :: r in s.outcomes
  }

  /** A settled request stays settled as it was, and nothing is granted once the session has been
      retired, nor at or above the limit. */
  lemma {:induction false} OutcomesAreFinal(s: Slots, step: Step)
    requires Valid(s)
    ensures var t := Apply(s, step);
            && (forall r | r in s.outcomes :: r in t.outcomes && t.outcomes[r] == s.outcomes[r])
            && (s.retired ==> t.retired && t.held <= s.held && NoneGranted(s, t))
            && (t.held <= s.held || (t.limit.Some? && |t.held| <= t.limit.value))
  {
    match step
    case AcquireStep(aborted) =>
    case AbortStep(request) =>
    case LimitStep(limit) =>
      LimitGrants(s.(limit := Some(limit)));
      DrainKeeps(s.(limit := Some(limit)));
    case RetireStep => RetiredAll(s.outcomes, s.waiting);
    case ReleaseStep(request) =>
      if request in s.held {
        LimitGrants(s.(held := s.held - {request}));
        DrainKeeps(s.(held := s.held - {request}));
      }
    case WhenIdleStep(callback) =>
  }

  lemma {:induction false} LimitGrants(s: Slots)
    requires Accounted(s) && (s.retired ==> s.waiting == [])
    ensures forall r | r in s.outcomes :: r in Drain(s).outcomes && Drain(s).outcomes[r] == s.outcomes[r]
    ensures Drain(s).held <= s.held || (s.limit.Some? && |Drain(s).held| <= s.limit.value)
  {
    DrainKeepsOutcomes(s);
    DrainServesOldest(s);
    DrainGrows(s);
    DrainKeeps(s);
    var n: nat :| n <= |s.waiting| && Drain(s).waiting == s.waiting[n..]
                  && |Drain(s).held| == |s.held| + n && (n > 0 ==> s.limit.Some? && |s.held| + n <= s.limit.value);
    if n == 0 { SameSize(s.held, Drain(s).held); }
  }

  lemma {:induction false} SameSize(a: set<nat>, b: set<nat>)
    requires a <= b && |a| == |b|
    ensures a == b
  {
    assert b == a + (b - a);
  }

  /** The idle callback is called exactly when the last slot is released and no waiter takes it;
      it is forgotten with that, so that it is called once. */
  lemma {:induction false} IdleFiresWhenLastSlotGoes(s: Slots, step: Step)
    requires Valid(s) && !step.WhenIdleStep?
    ensures var t := Apply(s, step);
            if s.held != {} && t.held == {} && s.idle.Some?
            then t.fired == s.fired + [s.idle.value] && t.idle == None
            else t.fired == s.fired && t.idle == s.idle
  {
    match step
    case AcquireStep(aborted) =>
    case AbortStep(request) =>
    case LimitStep(limit) => DrainKeeps(s.(limit := Some(limit)));
    case RetireStep =>
    case ReleaseStep(request) => if request in s.held { DrainKeeps(s.(held := s.held - {request})); }
    case WhenIdleStep(callback) =>
  }

  // ----- Over whole runs -----

  /** Whatever follows, a settled request stays settled as it was; and once the session has been
      retired nothing is granted any more and slots only come back. */
  lemma {:induction false} RunsKeepOutcomes(s: Slots, steps: seq<Step>)
    requires Valid(s)
    ensures var t := Run(s, steps);
            && (forall r | r in s.outcomes :: r in t.outcomes && t.outcomes[r] == s.outcomes[r])
            && (s.retired ==> t.retired && t.held <= s.held && NoneGranted(s, t))
    decreases |steps|
  {
    if steps != [] {
      hide Apply, Accounts, Settled;
      OutcomesAreFinal(s, steps[0]);
      StepKeepsValid(s, steps[0]);
      RunsKeepOutcomes(Apply(s, steps[0]), steps[1..]);
    }
  }

  /** The idle callbacks that have been called, and the one that may still be. */
  function Owed(s: Slots): multiset<nat> {
    multiset(s.fired) + if s.idle.Some? then multiset{s.idle.value} else multiset{}
  }

  function Registered(steps: seq<Step>): multiset<nat>
    decreases |steps|
  {
    if steps == [] then multiset{}
    else (if steps[0].WhenIdleStep? then multiset{steps[0].callback} else multiset{}) + Registered(steps[1..])
  }

  lemma {:induction false} StepOwes(s: Slots, step: Step)
    requires Valid(s)
    ensures Owed(Apply(s, step)) <= Owed(s) + if step.WhenIdleStep? then multiset{step.callback} else multiset{}
  {
    if !step.WhenIdleStep? {
      IdleFiresWhenLastSlotGoes(s, step);
      hide Apply, Accounts;
    }
  }

  lemma {:induction false} RunOwes(s: Slots, steps: seq<Step>)
    requires Valid(s)
    ensures Owed(Run(s, steps)) <= Owed(s) + Registered(steps)
    decreases |steps|
  {
    if steps != [] {
      hide Apply, Accounts, Settled, Owed;
      StepOwes(s, steps[0]);
      StepKeepsValid(s, steps[0]);
      RunOwes(Apply(s, steps[0]), steps[1..]);
    }
  }

  /** In any run of a new pool a callback is called at most as often as it was registered. */
  lemma {:induction false} CallbacksFireOncePerRegistration(steps: seq<Step>, callback: nat)
    ensures multiset(Run(INITIAL, steps).fired)[callback] <= Registered(steps)[callback]
  {
    RunOwes(INITIAL, steps);
    var owed := Owed(Run(INITIAL, steps));
    assert Owed(INITIAL) == multiset{};
    assert owed <= Registered(steps);
    assert multiset(Run(INITIAL, steps).fired) <= owed;
  }
}
