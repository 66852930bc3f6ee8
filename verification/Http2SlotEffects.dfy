/** What each call on the slots of an HTTP/2 session does, told of the state before it. */
module Http2SlotEffects {
  import opened Wrappers
  import opened Http2SlotModel

  function Min(a: nat, b: nat): nat {
    if a < b then a else b
  }

  /** The number of waiters that get a slot when nobody else does: as many as there are free slots. */
  function Served(s: Slots): nat {
    if s.retired || s.limit.None? || s.limit.value <= |s.held| then 0 else Min(|s.waiting|, s.limit.value - |s.held|)
  }

  function Those(q: seq<nat>): set<nat> {
    set r | r in q
  }

  /** `t` is `s` after its `n` oldest waiters have got slots. */
  ghost predicate ServedOldest(s: Slots, n: nat, t: Slots) {
    && n <= |s.waiting| && t == s.(waiting := s.waiting[n..], held := s.held + Those(s.waiting[..n]), outcomes := t.outcomes)
    && (forall r | r in s.waiting[..n] :: r in t.outcomes && t.outcomes[r] == Granted)
    && forall r | r !in s.waiting[..n] :: (r in t.outcomes <==> r in s.outcomes) && (r in s.outcomes ==> t.outcomes[r] == s.outcomes[r])
  }

  lemma {:induction false} DrainsExactly(s: Slots)
    requires Accounted(s)
    ensures ServedOldest(s, Served(s), Drain(s))
    decreases |s.waiting|
  {
    hide ServedOldest, Served, Accounts, Those, Settled;
    if s.HasRoom() && s.waiting != [] {
      var t := Grant(s, s.waiting[0]).(waiting := s.waiting[1..]);
      HeadGranted(s);
      NewlyHeld(s);
      DrainsExactly(t);
      ServedNext(s);
      OneMoreServed(s, t, Served(t), Drain(t));
    } else {
      NoneServed(s);
    }
  }

  lemma NoneServed(s: Slots)
    requires !s.HasRoom() || s.waiting == []
    ensures Served(s) == 0 && ServedOldest(s, 0, s)
  {
    assert s.waiting[..0] == [] && s.waiting[0..] == s.waiting;
    assert s.held + Those([]) == s.held;
  }

  lemma ServedNext(s: Slots)
    requires s.HasRoom() && s.waiting != [] && s.waiting[0] !in s.held
    ensures Served(s) == Served(Grant(s, s.waiting[0]).(waiting := s.waiting[1..])) + 1
  {
  }

  lemma NewlyHeld(s: Slots)
    requires Accounted(s) && s.waiting != []
    ensures s.waiting[0] !in s.held && s.waiting[0] !in s.waiting[1..]
  {
    assert s.waiting[0] in s.waiting;
  }

  lemma {:induction false} OneMoreServed(s: Slots, t: Slots, n: nat, u: Slots)
    requires s.waiting != [] && t == Grant(s, s.waiting[0]).(waiting := s.waiting[1..]) && ServedOldest(t, n, u)
    requires s.waiting[0] !in s.waiting[1..]
    ensures ServedOldest(s, n + 1, u)
  {
    assert s.waiting[n + 1..] == t.waiting[n..];
    assert s.waiting[..n + 1] == [s.waiting[0]] + t.waiting[..n];
    forall r
      ensures r in s.waiting[..n + 1] <==> r == s.waiting[0] || r in t.waiting[..n]
    {
    }
    assert Those(s.waiting[..n + 1]) == {s.waiting[0]} + Those(t.waiting[..n]);
  }

  /** A new request is settled at once if its signal has been aborted, the session is retired or a slot is
      free; otherwise it waits behind all others. Nothing else changes. */
  lemma AcquiresExactly(s: Slots, aborted: bool)
    ensures var t, request := Acquire(s, aborted), s.issued;
            if aborted then t == s.(issued := request + 1, outcomes := s.outcomes[request := Aborted])
            else if s.retired then t == s.(issued := request + 1, outcomes := s.outcomes[request := Retired])
            else if s.limit.Some? && |s.held| < s.limit.value then
              t == s.(issued := request + 1, outcomes := s.outcomes[request := Granted], held := s.held + {request})
            else t == s.(issued := request + 1, waiting := s.waiting + [request])
  {
  }

  /** An aborted request that was waiting leaves its place, and the others keep theirs. */
  lemma {:induction false} AbortsExactly(s: Slots, front: seq<nat>, request: nat, back: seq<nat>)
    requires Accounted(s) && s.waiting == front + [request] + back
    ensures Abort(s, request) == s.(waiting := front + back, outcomes := s.outcomes[request := Aborted])
  {
    assert s.waiting[|front|] == request;
    forall i | 0 <= i < |front|
      ensures front[i] != request
    {
      assert s.waiting[i] == front[i];
    }
    forall i | 0 <= i < |back|
      ensures back[i] != request
    {
      assert s.waiting[|front| + 1 + i] == back[i];
    }
    assert front + [request] + back == front + ([request] + back);
    NothingWithout(back, request);
    assert ([request] + back)[1..] == back;
    WithoutAfter(front, [request] + back, request);
  }

  lemma {:induction false} NothingWithout(q: seq<nat>, r: nat)
    requires r !in q
    ensures Without(q, r) == q
  {
    if q != [] { NothingWithout(q[1..], r); }
  }

  lemma {:induction false} WithoutAfter(front: seq<nat>, q: seq<nat>, r: nat)
    requires r !in front
    ensures Without(front + q, r) == front + Without(q, r)
  {
    if front == [] {
      assert front + q == q;
    } else {
      assert (front + q)[1..] == front[1..] + q;
      WithoutAfter(front[1..], q, r);
    }
  }

  lemma AbortIgnoresSettled(s: Slots, request: nat)
    requires request !in s.waiting
    ensures Abort(s, request) == s
  {
  }

  /** A new limit is in force from then on, and as many of the oldest waiters get slots as it leaves free;
      a retired session takes no limit. */
  lemma {:induction false} LimitsExactly(s: Slots, limit: nat)
    requires Valid(s)
    ensures var t, u := UpdateLimit(s, limit), s.(limit := Some(limit));
            if s.retired then t == s
            else ServedOldest(u, if limit <= |s.held| then 0 else Min(|s.waiting|, limit - |s.held|), t)
  {
    if !s.retired { DrainsExactly(s.(limit := Some(limit))); }
  }

  /** A released slot is handed to the oldest waiter, unless the limit has come down; releasing a slot
      again does nothing. */
  lemma {:induction false} ReleasesExactly(s: Slots, request: nat)
    requires Valid(s)
    ensures request !in s.held ==> Release(s, request) == s
    ensures request in s.held ==>
              var u, t := s.(held := s.held - {request}), Release(s, request);
              exists v :: ServedOldest(u, Served(u), v) && t == v.(idle := t.idle, fired := t.fired)
  {
    if request in s.held {
      var u := s.(held := s.held - {request});
      DrainsExactly(u);
      assert Release(s, request) == FireIfIdle(Drain(u));
      hide Drain, ServedOldest, Accounts;
    }
  }

  /** While no more slots are in use than the limit allows, a release serves one waiter if there is any. */
  lemma {:induction false} OneReleaseServesOne(s: Slots, request: nat)
    requires Valid(s) && request in s.held && !s.retired && s.limit.Some? && |s.held| <= s.limit.value
    ensures Served(s.(held := s.held - {request})) == if s.waiting == [] then 0 else 1
  {
    assert |s.held - {request}| == |s.held| - 1;
  }

  /** Retiring settles every waiter as retired and leaves the slots in use alone. */
  lemma {:induction false} RetiresExactly(s: Slots)
    requires Valid(s)
    ensures var t := Retire(s);
            && t == s.(retired := true, waiting := t.waiting, outcomes := t.outcomes) && t.waiting == []
            && (forall r | r in s.waiting :: r in t.outcomes && t.outcomes[r] == Retired)
            && (forall r | r !in s.waiting :: (r in t.outcomes <==> r in s.outcomes) && (r in s.outcomes ==> t.outcomes[r] == s.outcomes[r]))
  {
    if !s.retired { RetireAllExactly(s.outcomes, s.waiting); }
  }

  lemma {:induction false} RetireAllExactly(outcomes: map<nat, Outcome>, waiting: seq<nat>)
    ensures var t := RetireAll(outcomes, waiting);
            && (forall r | r in waiting :: r in t && t[r] == Retired)
            && (forall r | r !in waiting :: (r in t <==> r in outcomes) && (r in outcomes ==> t[r] == outcomes[r]))
    decreases |waiting|
  {
    if waiting != [] {
      RetireAllExactly(outcomes[waiting[0] := Retired], waiting[1..]);
      assert forall r :: r in waiting <==> r == waiting[0] || r in waiting[1..];
    }
  }

  /** An idle callback is called at once while no slot is in use, and otherwise replaces the one that was
      to be called. */
  lemma IdleExactly(s: Slots, callback: nat)
    ensures WhenIdle(s, callback)
         == if |s.held| == 0 then s.(fired := s.fired + [callback]) else s.(idle := Some(callback))
  {
    assert |s.held| == 0 <==> s.held == {};
  }
}
