/** What each committed operation did to the session, told of the state before and after it. */
module SessionEffects {
  import opened Wrappers
  import opened SessionHistory

  /** `after` is `before` with its ending `gone` replaced by `come`. */
  predicate EndReplaced(before: seq<Item>, gone: seq<Item>, come: seq<Item>, after: seq<Item>) {
    && |gone| <= |before| && |after| == |before| - |gone| + |come|
    && (forall i | 0 <= i < |before| - |gone| :: after[i] == before[i])
    && (forall i | 0 <= i < |gone| :: before[|before| - |gone| + i] == gone[i])
    && (forall i | 0 <= i < |come| :: after[|before| - |gone| + i] == come[i])
  }

  /** The ending of a list is `suffix`. */
  predicate EndsWith(items: seq<Item>, suffix: seq<Item>) {
    |suffix| <= |items| && forall i | 0 <= i < |suffix| :: items[|items| - |suffix| + i] == suffix[i]
  }

  function Suffix(t: Transaction): seq<Item> {
    if t.AppendItems? then [] else t.expectedSuffix
  }

  function Replacement(t: Transaction): seq<Item> {
    if t.AppendItems? then t.items else t.replacement
  }

  /** The rewritings of a list of mutations, one after the other: each puts its replacement where the first
      call with its identifier was, and leaves the items that are no such call as and where they were. */
  ghost predicate RewrittenBy(before: seq<Item>, mutations: seq<Mutation>, after: seq<Item>)
    decreases |mutations|
  {
    if mutations == [] then after == before
    else exists next :: RewrittenOnce(before, mutations[0].callId, mutations[0].replacement, next) && RewrittenBy(next, mutations[1..], after)
  }

  ghost predicate RewrittenOnce(before: seq<Item>, callId: string, replacement: Item, after: seq<Item>) {
    if forall i | 0 <= i < |before| :: !IsCall(before[i], callId) then after == before
    else
      exists k ::
        && 0 <= k < |before| && IsCall(before[k], callId) && (forall i | 0 <= i < k :: !IsCall(before[i], callId))
        && after == before[..k] + [replacement] + OtherItems(before[k + 1..], callId)
  }

  /** What the commit of this operation did. */
  ghost predicate Did(e: Entry, digests: Digests) {
    match e.op
    case Touch => e.after == e.before && e.popped == None
    case AddItems(items) => EndReplaced(e.before.items, [], items, e.after.items) && e.after.operations == e.before.operations
    case ReplaceHistory(items) => e.after == e.before.(items := items)
    case PopItem => Removes(e, e.popped)
    case ClearSession => e.after.items == [] && e.after.operations == map[]
    case Mutations(mutations) => RewrittenBy(e.before.items, mutations, e.after.items) && e.after.operations == e.before.operations
    case Transact(id, t) =>
      && id in e.after.operations && e.after.operations[id] == digests.current(t)
      && (forall other | other != id :: other in e.after.operations <==> other in e.before.operations)
      && (forall other | other != id && other in e.before.operations :: e.after.operations[other] == e.before.operations[other])
      && if id in e.before.operations then e.after.items == e.before.items
         else EndReplaced(e.before.items, Suffix(t), Replacement(t), e.after.items)
  }

  lemma {:induction false} RewrittenAsTold(items: seq<Item>, callId: string, replacement: Item)
    ensures RewrittenOnce(items, callId, replacement, Rewritten(items, callId, replacement, false))
  {
    RewriteReplacesFirst(items, callId, replacement);
    var k := FirstCall(items, callId);
    hide OtherItems, IsCall;
    if k < |items| { assert IsCall(items[k], callId); }
  }

  lemma {:induction false} AllRewrittenAsTold(items: seq<Item>, mutations: seq<Mutation>)
    ensures RewrittenBy(items, mutations, RewrittenAll(items, mutations))
    decreases |mutations|
  {
    hide RewrittenOnce, Rewritten;
    if mutations != [] {
      RewrittenAsTold(items, mutations[0].callId, mutations[0].replacement);
      AllRewrittenAsTold(Rewritten(items, mutations[0].callId, mutations[0].replacement, false), mutations[1..]);
    }
  }

  lemma {:induction false} TransactionAsTold(items: seq<Item>, t: Transaction)
    ensures ApplyTransaction(items, t).Success? <==> EndsWith(items, Suffix(t))
    ensures ApplyTransaction(items, t).Success? ==> EndReplaced(items, Suffix(t), Replacement(t), ApplyTransaction(items, t).value)
    ensures ApplyTransaction(items, t).Failure? ==> ApplyTransaction(items, t).error == SuffixMismatch
  {
    var start := |items| - |Suffix(t)|;
    if start >= 0 {
      assert items[start..] == Suffix(t) <==> EndsWith(items, Suffix(t));
      assert items == items[..start] + items[start..];
    }
  }

  /** An operation fails exactly when it is a transaction under an identifier that has been used for
      another one, or a new one that expects an ending that the items do not have; when it succeeds it
      does what it is for. */
  lemma {:induction false} AppliesExactly(e: Entry, digests: Digests)
    ensures var result, t := Apply(e.before, digests, e.op), e.op;
            && (result == Failure(DifferentTransaction)
                <==> && t.Transact? && t.operationId in e.before.operations
                     && e.before.operations[t.operationId] != digests.current(t.transaction)
                     && e.before.operations[t.operationId] !in digests.legacy(t.transaction))
            && (result == Failure(SuffixMismatch)
                <==> t.Transact? && t.operationId !in e.before.operations && !EndsWith(e.before.items, Suffix(t.transaction)))
    ensures Apply(e.before, digests, e.op) == Success(Computed(e.after, e.popped)) ==> Did(e, digests)
  {
    hide EndsWith, EndReplaced, ApplyTransaction, RewrittenBy, RewrittenAll;
    match e.op
    case AddItems(items) => Appended(e.before.items, items);
    case Mutations(mutations) => AllRewrittenAsTold(e.before.items, mutations);
    case Transact(id, t) => TransactionAsTold(e.before.items, t);
    case _ =>
  }

  lemma Appended(before: seq<Item>, items: seq<Item>)
    ensures EndReplaced(before, [], items, before + items)
  {
  }

  /** Over every interleaving of sessions, retries and losses: every commit in the log did what its
      operation is for, to the state that the commit before it left. */
  lemma {:induction false} EveryCommitDid(digests: Digests, steps: seq<Step>, i: nat)
    requires i < |Run(EMPTY, digests, steps).log|
    ensures var log := Run(EMPTY, digests, steps).log;
            Did(log[i], digests) && (i > 0 ==> log[i].before == log[i - 1].after)
  {
    hide Did, Apply, Run;
    RunKeepsInv(EMPTY, digests, steps);
    AppliesExactly(Run(EMPTY, digests, steps).log[i], digests);
  }

  /** A call that finds the session changed tries again, up to eight times in all; then it fails, like one
      whose lease is lost. */
  lemma {:induction false} RetriesEightTimes(digests: Digests, steps: seq<Step>, call: nat)
    requires call in Run(EMPTY, digests, steps).calls && Run(EMPTY, digests, steps).calls[call].Committing?
    ensures var s := Run(EMPTY, digests, steps);
            var p, t := s.calls[call], Commit(s, call);
            && p.attempt < 8
            && (s.store != p.expected ==>
                  && t == s.(calls := t.calls) && t.calls == s.calls[call := t.calls[call]]
                  && t.calls[call] == (if p.attempt == 7 then Failed else Reading(p.op, p.attempt + 1)))
            && (s.store == p.expected ==> t.store == Some(p.next.state) && t.calls == s.calls[call := Returned(p.op, p.next.popped)])
  {
    RunKeepsInv(EMPTY, digests, steps);
    var s := Run(EMPTY, digests, steps);
    assert CallOk(s.log, digests, call, s.calls[call]);
    hide Run, Apply, Chained;
  }

  /** Dropping the calls with an identifier goes item by item. */
  lemma {:induction false} OthersItemByItem(a: seq<Item>, b: seq<Item>, callId: string)
    ensures OtherItems(a + b, callId) == OtherItems(a, callId) + OtherItems(b, callId)
    ensures |a| == 1 ==> OtherItems(a, callId) == if IsCall(a[0], callId) then [] else a
  {
    hide IsCall;
    if a == [] {
      assert a + b == b;
    } else {
      assert (a + b)[1..] == a[1..] + b;
      OthersItemByItem(a[1..], b, callId);
    }
  }
}
