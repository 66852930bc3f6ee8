/** Conversation history kept in one value that sessions change by compare-and-set: read, compute,
    commit if nothing has changed, else try again. */
module SessionHistory {
  import opened Wrappers

  datatype Item = FunctionCall(callId: string, payload: string) | Other(payload: string)

  datatype State = State(items: seq<Item>, operations: map<string, string>)

  datatype Transaction = AppendItems(items: seq<Item>) | ReplaceSuffix(expectedSuffix: seq<Item>, replacement: seq<Item>)

  datatype Mutation = ReplaceFunctionCall(callId: string, replacement: Item)

  /** `current` is the receipt of a transaction, `legacy` the receipts that earlier versions wrote
      for it. */
  datatype Digests = Digests(current: Transaction -> string, legacy: Transaction -> set<string>)

  datatype Operation = Touch | AddItems(items: seq<Item>) | ReplaceHistory(items: seq<Item>) | PopItem | ClearSession
                     | Mutations(mutations: seq<Mutation>) | Transact(operationId: string, transaction: Transaction)

  /** What computing an operation gives: a new state and the item it popped, or an error. */
  datatype Computed = Computed(state: State, popped: Option<Item>)

  datatype Error = DifferentTransaction | SuffixMismatch

  // ----- The operations on a state -----

  /** The first call with this id is replaced, the others are dropped. */
  function Rewritten(items: seq<Item>, callId: string, replacement: Item, kept: bool): seq<Item> {
    if items == [] then []
    else
      var rest := items[1..];
      if IsCall(items[0], callId) then (if kept then [] else [replacement]) + Rewritten(rest, callId, replacement, true)
      else [items[0]] + Rewritten(rest, callId, replacement, kept)
  }

  predicate IsCall(item: Item, callId: string) {
    item.FunctionCall? && item.callId == callId
  }

  function RewrittenAll(items: seq<Item>, mutations: seq<Mutation>): seq<Item>
    decreases |mutations|
  {
    if mutations == [] then items
    else RewrittenAll(Rewritten(items, mutations[0].callId, mutations[0].replacement, false), mutations[1..])
  }

  function ApplyTransaction(items: seq<Item>, transaction: Transaction): Result<seq<Item>, Error> {
    match transaction
    case AppendItems(more) => Success(items + more)
    case ReplaceSuffix(suffix, replacement) =>
      var start := |items| - |suffix|;
      if start < 0 || items[start..] != suffix then Failure(SuffixMismatch) else Success(items[..start] + replacement)
  }

  function ApplyOnce(state: State, digests: Digests, id: string, transaction: Transaction): Result<Computed, Error> {
    var digest := digests.current(transaction);
    if id in state.operations then
      var existing := state.operations[id];
      if existing == digest then Success(Computed(state, None))
      else if existing !in digests.legacy(transaction) then Failure(DifferentTransaction)
      else Success(Computed(state.(operations := state.operations[id := digest]), None))
    else
      match ApplyTransaction(state.items, transaction)
      case Failure(error) => Failure(error)
      case Success(items) => Success(Computed(State(items, state.operations[id := digest]), None))
  }

  function Apply(state: State, digests: Digests, op: Operation): Result<Computed, Error> {
    match op
    case Touch => Success(Computed(state, None))
    case AddItems(items) => Success(Computed(state.(items := state.items + items), None))
    case ReplaceHistory(items) => Success(Computed(state.(items := items), None))
    case PopItem =>
      if state.items == [] then Success(Computed(state, None))
      else Success(Computed(state.(items := state.items[..|state.items| - 1]), Some(state.items[|state.items| - 1])))
    case ClearSession => Success(Computed(State([], map[]), None))
    case Mutations(mutations) => Success(Computed(state.(items := RewrittenAll(state.items, mutations)), None))
    case Transact(id, transaction) => ApplyOnce(state, digests, id, transaction)
  }

  /** The loops of `applyHistoryMutations`. */
  method ApplyHistoryMutations(items: seq<Item>, mutations: seq<Mutation>) returns (result: seq<Item>)
    ensures result == RewrittenAll(items, mutations)
  {
    result := items;
    for m := 0 to |mutations|
      invariant RewrittenAll(result, mutations[m..]) == RewrittenAll(items, mutations)
    {
      assert mutations[m..][1..] == mutations[m + 1..];
      result := RewriteOnce(result, mutations[m].callId, mutations[m].replacement);
    }
  }

  method RewriteOnce(items: seq<Item>, callId: string, replacement: Item) returns (next: seq<Item>)
    ensures next == Rewritten(items, callId, replacement, false)
  {
    next := [];
    var keptReplacement := false;
    for i := 0 to |items|
      invariant next + Rewritten(items[i..], callId, replacement, keptReplacement) == Rewritten(items, callId, replacement, false)
    {
      assert items[i..][1..] == items[i + 1..];
      if IsCall(items[i], callId) {
        if !keptReplacement {
          next := next + [replacement];
          keptReplacement := true;
        }
      } else {
        next := next + [items[i]];
      }
    }
  }

  function OtherItems(items: seq<Item>, callId: string): seq<Item> {
    if items == [] then []
    else (if IsCall(items[0], callId) then [] else [items[0]]) + OtherItems(items[1..], callId)
  }

  /** The position of the first call with this id, or the length if there is none. */
  function FirstCall(items: seq<Item>, callId: string): (k: nat)
    ensures k <= |items| && (k < |items| ==> IsCall(items[k], callId))
    ensures forall i | 0 <= i < k :: !IsCall(items[i], callId)
  {
    if items == [] || IsCall(items[0], callId) then 0 else 1 + FirstCall(items[1..], callId)
  }

  /** A rewrite puts one replacement where the first matching call was and leaves all other items
      as and where they were; without a matching call it changes nothing. */
  lemma {:induction false} RewriteReplacesFirst(items: seq<Item>, callId: string, replacement: Item)
    ensures var k := FirstCall(items, callId);
            Rewritten(items, callId, replacement, false)
            == if k < |items| then items[..k] + [replacement] + OtherItems(items[k + 1..], callId) else items
  {
    if items != [] {
      var rest := items[1..];
      if IsCall(items[0], callId) {
        RewrittenLater(rest, callId, replacement);
      } else {
        RewriteReplacesFirst(rest, callId, replacement);
        var k := FirstCall(rest, callId);
        hide OtherItems, IsCall;
        if k < |rest| { SplitLater(items, k, replacement, OtherItems(rest[k + 1..], callId)); }
      }
    }
  }

  lemma SplitLater(items: seq<Item>, k: nat, replacement: Item, others: seq<Item>)
    requires k + 1 < |items|
    ensures items[..k + 1] == [items[0]] + items[1..][..k] && items[k + 2..] == items[1..][k + 1..]
    ensures [items[0]] + (items[1..][..k] + [replacement] + others) == items[..k + 1] + [replacement] + others
  {
  }

  lemma {:induction false} RewrittenLater(items: seq<Item>, callId: string, replacement: Item)
    ensures Rewritten(items, callId, replacement, true) == OtherItems(items, callId)
  {
    if items != [] { RewrittenLater(items[1..], callId, replacement); }
  }

  // ----- Sessions running side by side -----

  const MAX_ATTEMPTS := 8

  /** Where a call of `mutate` is; `expected` is what the commit compares the store with. */
  datatype Phase = Reading(op: Operation, attempt: nat)
                 | Committing(op: Operation, attempt: nat, expected: Option<State>, before: State, next: Computed)
                 | Returned(op: Operation, popped: Option<Item>)
                 | Failed

  /** One successful commit. */
  datatype Entry = Entry(call: nat, op: Operation, before: State, after: State, popped: Option<Item>)

  datatype System = System(store: Option<State>, calls: map<nat, Phase>, log: seq<Entry>)

  const EMPTY := System(None, map[], [])

  /** What a call reads: the store, or, while it is empty, the session's own initial items or the
      state left by an earlier version. */
  function ReadState(s: System, initial: State): State {
    if s.store.Some? then s.store.value else initial
  }

  function Read(s: System, digests: Digests, call: nat, initial: State): System {
    if call !in s.calls || !s.calls[call].Reading? then s
    else
      var phase, before := s.calls[call], ReadState(s, initial);
      match Apply(before, digests, phase.op)
      case Failure(_) => s.(calls := s.calls[call := Failed])
      case Success(next) => s.(calls := s.calls[call := Committing(phase.op, phase.attempt, s.store, before, next)])
  }

  function Commit(s: System, call: nat): System {
    if call !in s.calls || !s.calls[call].Committing? then s
    else
      var p := s.calls[call];
      if s.store == p.expected then
        System(Some(p.next.state), s.calls[call := Returned(p.op, p.next.popped)],
               s.log + [Entry(call, p.op, p.before, p.next.state, p.next.popped)])
      else s.(calls := s.calls[call := if p.attempt + 1 < MAX_ATTEMPTS then Reading(p.op, p.attempt + 1) else Failed])
  }

  datatype Step = Start(call: nat, op: Operation) | ReadStep(call: nat, initial: State) | CommitStep(call: nat)
                | Lose(call: nat)

  /** `Lose` is the loss of the lock's lease before a commit is tried. */
  function Next(s: System, digests: Digests, step: Step): System {
    match step
    case Start(call, op) => if call in s.calls then s else s.(calls := s.calls[call := Reading(op, 0)])
    case ReadStep(call, initial) => Read(s, digests, call, initial)
    case CommitStep(call) => Commit(s, call)
    case Lose(call) =>
      if call in s.calls && (s.calls[call].Reading? || s.calls[call].Committing?) then s.(calls := s.calls[call := Failed]) else s
  }

  function Run(s: System, digests: Digests, steps: seq<Step>): System
    decreases |steps|
  {
    if steps == [] then s else Run(Next(s, digests, steps[0]), digests, steps[1..])
  }

  // ----- The invariant -----

  /** The commits follow one another, each computed from the state the one before left. */
  predicate Chained(log: seq<Entry>, digests: Digests) {
    && (forall i | 0 <= i < |log| :: Apply(log[i].before, digests, log[i].op) == Success(Computed(log[i].after, log[i].popped)))
    && forall i | 0 < i < |log| :: log[i].before == log[i - 1].after
  }

  predicate StoreIsLast(store: Option<State>, log: seq<Entry>) {
    store == if log == [] then None else Some(log[|log| - 1].after)
  }

  predicate CallOk(log: seq<Entry>, digests: Digests, call: nat, phase: Phase) {
    match phase
    case Reading(_, attempt) => attempt < MAX_ATTEMPTS && NotLogged(log, call)
    case Committing(op, attempt, expected, before, next) =>
      && attempt < MAX_ATTEMPTS && NotLogged(log, call) && Apply(before, digests, op) == Success(next)
      && (expected.Some? ==> before == expected.value)
    case Returned(op, popped) => exists i :: 0 <= i < |log| && LoggedAs(log[i], call, op, popped)
    case Failed => NotLogged(log, call)
  }

  predicate LoggedAs(e: Entry, call: nat, op: Operation, popped: Option<Item>) {
    e.call == call && e.op == op && e.popped == popped
  }

  predicate NotLogged(log: seq<Entry>, call: nat) {
    forall i | 0 <= i < |log| :: log[i].call != call
  }

  ghost predicate Inv(s: System, digests: Digests) {
    && Chained(s.log, digests) && StoreIsLast(s.store, s.log)
    && (forall call | call in s.calls :: CallOk(s.log, digests, call, s.calls[call]))
    && (forall i, j | 0 <= i < j < |s.log| :: s.log[i].call != s.log[j].call)
    && forall i | 0 <= i < |s.log| :: s.log[i].call in s.calls
  }

  lemma {:induction false} CommitKeepsInv(s: System, digests: Digests, call: nat)
    requires Inv(s, digests) && call in s.calls && s.calls[call].Committing?
    ensures Inv(Commit(s, call), digests)
  {
    var p, t := s.calls[call], Commit(s, call);
    if s.store == p.expected {
      var e := Entry(call, p.op, p.before, p.next.state, p.next.popped);
      assert CallOk(s.log, digests, call, p);
      ChainOneMore(s.log, e, s.store, digests);
      forall c | c in t.calls
        ensures CallOk(t.log, digests, c, t.calls[c])
      {
        if c == call {
          assert t.log[|s.log|] == e && LoggedAs(t.log[|s.log|], call, p.op, p.next.popped);
        } else {
          assert CallOk(s.log, digests, c, s.calls[c]);
          OthersStayOk(s.log, e, digests, c, s.calls[c]);
        }
      }
    } else {
      assert CallOk(s.log, digests, call, p);
      forall c | c in t.calls
        ensures CallOk(t.log, digests, c, t.calls[c])
      {
        assert c in s.calls && CallOk(s.log, digests, c, s.calls[c]);
      }
    }
  }

  lemma ChainOneMore(log: seq<Entry>, e: Entry, store: Option<State>, digests: Digests)
    requires Chained(log, digests) && StoreIsLast(store, log)
    requires Apply(e.before, digests, e.op) == Success(Computed(e.after, e.popped)) && (store.Some? ==> e.before == store.value)
    ensures Chained(log + [e], digests) && StoreIsLast(Some(e.after), log + [e])
  {
  }

  lemma {:induction false} OthersStayOk(log: seq<Entry>, e: Entry, digests: Digests, call: nat, phase: Phase)
    requires CallOk(log, digests, call, phase) && e.call != call
    ensures CallOk(log + [e], digests, call, phase)
  {
    if phase.Returned? {
      var i :| 0 <= i < |log| && LoggedAs(log[i], call, phase.op, phase.popped);
      assert LoggedAs((log + [e])[i], call, phase.op, phase.popped);
    }
  }

  lemma {:induction false} StepKeepsInv(s: System, digests: Digests, step: Step)
    requires Inv(s, digests)
    ensures Inv(Next(s, digests, step), digests)
  {
    if step.CommitStep? {
      if step.call in s.calls && s.calls[step.call].Committing? { CommitKeepsInv(s, digests, step.call); }
    } else {
      hide Chained, Apply;
      var t := Next(s, digests, step);
      forall c | c in t.calls
        ensures CallOk(t.log, digests, c, t.calls[c])
      {
        if c in s.calls { assert CallOk(s.log, digests, c, s.calls[c]); }
      }
    }
  }

  lemma {:induction false} RunKeepsInv(s: System, digests: Digests, steps: seq<Step>)
    requires Inv(s, digests)
    ensures Inv(Run(s, digests, steps), digests)
    decreases |steps|
  {
    if steps != [] {
      StepKeepsInv(s, digests, steps[0]);
      hide Inv;
      RunKeepsInv(Next(s, digests, steps[0]), digests, steps[1..]);
    }
  }

  // ----- What it means -----

  /** The operations applied one after another; one that fails has no effect. */
  function Replay(state: State, digests: Digests, ops: seq<Operation>): State
    decreases |ops|
  {
    if ops == [] then state
    else
      var result := Apply(state, digests, ops[0]);
      Replay(if result.Success? then result.value.state else state, digests, ops[1..])
  }

  function Ops(log: seq<Entry>): (ops: seq<Operation>)
    ensures |ops| == |log| && forall i | 0 <= i < |log| :: ops[i] == log[i].op
  {
    seq(|log|, i requires 0 <= i < |log| => log[i].op)
  }

  lemma {:induction false} ReplayChain(log: seq<Entry>, digests: Digests)
    requires Chained(log, digests) && log != []
    ensures Replay(log[0].before, digests, Ops(log)) == log[|log| - 1].after
    decreases |log|
  {
    var rest := log[1..];
    assert Ops(log)[1..] == Ops(rest);
    if rest != [] {
      assert forall i | 0 <= i < |rest| :: rest[i] == log[i + 1];
      assert Chained(rest, digests);
      ReplayChain(rest, digests);
    }
  }

  /** However the sessions interleave, what is stored is the committed operations applied one
      after another, in the order of their commits, to the state that the first of them started
      from; and a call that returned committed exactly once. */
  lemma {:induction false} StoreIsReplayOfCommits(digests: Digests, steps: seq<Step>)
    ensures var s := Run(EMPTY, digests, steps);
            && (s.log == [] ==> s.store == None)
            && (s.log != [] ==> s.store == Some(Replay(s.log[0].before, digests, Ops(s.log))))
            && forall call | call in s.calls ::
                 (s.calls[call].Returned? <==> !NotLogged(s.log, call))
                 && forall i, j | 0 <= i < j < |s.log| :: !(s.log[i].call == call && s.log[j].call == call)
  {
    RunKeepsInv(EMPTY, digests, steps);
    var s := Run(EMPTY, digests, steps);
    if s.log != [] { ReplayChain(s.log, digests); }
    hide Chained, Apply, Replay, Run, Ops;
    forall call | call in s.calls
      ensures s.calls[call].Returned? <==> !NotLogged(s.log, call)
    {
      assert CallOk(s.log, digests, call, s.calls[call]);
      if s.calls[call].Returned? {
        var i :| 0 <= i < |s.log| && LoggedAs(s.log[i], call, s.calls[call].op, s.calls[call].popped);
      }
    }
  }

  /** Despite retries, what `popItem` returns is the last item of the state that its commit
      replaced, and that commit removed exactly this occurrence. */
  lemma {:induction false} PopReturnsWhatItRemoved(digests: Digests, steps: seq<Step>, call: nat)
    ensures var s := Run(EMPTY, digests, steps);
            call in s.calls && s.calls[call].Returned? && s.calls[call].op.PopItem? ==>
              exists i :: 0 <= i < |s.log| && s.log[i].call == call && Removes(s.log[i], s.calls[call].popped)
  {
    RunKeepsInv(EMPTY, digests, steps);
    var s := Run(EMPTY, digests, steps);
    hide Run, Apply, Removes;
    if call in s.calls && s.calls[call].Returned? && s.calls[call].op.PopItem? {
      assert CallOk(s.log, digests, call, s.calls[call]);
      var i :| 0 <= i < |s.log| && LoggedAs(s.log[i], call, s.calls[call].op, s.calls[call].popped);
      PopRemoves(s.log[i], digests);
    }
  }

  lemma PopRemoves(e: Entry, digests: Digests)
    requires e.op.PopItem? && Apply(e.before, digests, e.op) == Success(Computed(e.after, e.popped))
    ensures Removes(e, e.popped)
  {
  }

  predicate Removes(e: Entry, popped: Option<Item>) {
    && e.after.operations == e.before.operations
    && match popped
       case None => e.before.items == [] && e.after == e.before
       case Some(item) => e.before.items == e.after.items + [item]
  }

  lemma ReceiptsStay(e: Entry, digests: Digests, id: string)
    requires Apply(e.before, digests, e.op) == Success(Computed(e.after, e.popped)) && !e.op.ClearSession?
    ensures id in e.before.operations ==> id in e.after.operations
    ensures e.op.Transact? ==> e.op.operationId in e.after.operations
    ensures e.op.Transact? && e.op.operationId in e.before.operations ==> e.after.items == e.before.items
  {
  }

  lemma {:induction false} ReceiptLasts(log: seq<Entry>, digests: Digests, i: nat, j: nat, id: string)
    requires Chained(log, digests) && i < j < |log| && id in log[i].after.operations
    requires forall k | i < k < j :: !log[k].op.ClearSession?
    ensures id in log[j].before.operations
    decreases j
  {
    if j > i + 1 {
      ReceiptLasts(log, digests, i, j - 1, id);
      ReceiptsStay(log[j - 1], digests, id);
    }
  }

  /** Between two clears an operation identifier changes the items at most once: the commit of a
      transaction whose identifier has been committed before leaves the items alone. */
  lemma {:induction false} TransactionsApplyOnce(digests: Digests, steps: seq<Step>, i: nat, j: nat)
    requires var log := Run(EMPTY, digests, steps).log;
             && i < j < |log| && log[i].op.Transact? && log[j].op.Transact? && log[i].op.operationId == log[j].op.operationId
             && forall k | i < k < j :: !log[k].op.ClearSession?
    ensures var e := Run(EMPTY, digests, steps).log[j]; e.after.items == e.before.items
  {
    RunKeepsInv(EMPTY, digests, steps);
    var log := Run(EMPTY, digests, steps).log;
    hide Run;
    ReceiptsStay(log[i], digests, log[i].op.operationId);
    ReceiptLasts(log, digests, i, j, log[i].op.operationId);
    ReceiptsStay(log[j], digests, log[i].op.operationId);
  }

  /** An identifier used again for another transaction is refused, as long as the digests tell the
      two apart. */
  lemma {:induction false} DifferentTransactionIsRefused(state: State, digests: Digests, id: string, first: Transaction, second: Transaction)
    requires id in state.operations
    requires state.operations[id] == digests.current(first) || state.operations[id] in digests.legacy(first)
    requires digests.current(first) != digests.current(second) && digests.current(first) !in digests.legacy(second)
    requires digests.legacy(first) !! digests.legacy(second) && digests.current(second) !in digests.legacy(first)
    ensures Apply(state, digests, Transact(id, second)) == Failure(DifferentTransaction)
    ensures exists same :: Apply(state, digests, Transact(id, first)) == Success(Computed(same, None)) && same.items == state.items
  {
    var result := Apply(state, digests, Transact(id, first));
    assert result.Success? && result == Success(Computed(result.value.state, None));
  }
}
