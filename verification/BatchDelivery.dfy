/** How the answer to a batch settles the promises of its commands. */
module BatchDelivery {
  import opened Wrappers
  import opened PipelineSplitting

  /** The executor throws, returns no list, or a list that may have holes, with rejection marks. */
  datatype Answer<V> = Threw(error: Item<V>) | NoList | Listed(items: seq<Option<Item<V>>>, rejected: Option<seq<bool>>)

  datatype Fate<V> = Resolved(item: Item<V>) | RejectedWith(item: Item<V>) | LengthMismatch | ItemMissing

  /** What the promise of command i is settled with. */
  function FateOf<V>(answer: Answer<V>, n: nat, i: nat): Fate<V>
    requires i < n
  {
    match answer
    case Threw(error) => RejectedWith(error)
    case NoList => LengthMismatch
    case Listed(items, rejected) =>
      if |items| != n then LengthMismatch
      else if items[i].None? then ItemMissing
      else if items[i].value.isError || Marked(rejected, i) then RejectedWith(items[i].value)
      else Resolved(items[i].value)
  }

  /** The loops of `sendBatch`: every promise is settled once, with its own answer. */
  method SendBatch<V>(n: nat, answer: Answer<V>) returns (fates: seq<Fate<V>>)
    ensures |fates| == n && forall i: nat | i < n :: fates[i] == FateOf(answer, n, i)
  {
    fates := [];
    if answer.Threw? {
      for i := 0 to n
        invariant |fates| == i && forall k: nat | k < i :: fates[k] == RejectedWith(answer.error)
      {
        fates := fates + [RejectedWith(answer.error)];
      }
      return;
    }
    if answer.NoList? || |answer.items| != n {
      for i := 0 to n
        invariant |fates| == i && forall k: nat | k < i :: fates[k] == LengthMismatch
      {
        fates := fates + [LengthMismatch];
      }
      return;
    }
    for i := 0 to n
      invariant |fates| == i && forall k: nat | k < i :: fates[k] == FateOf(answer, n, k)
    {
      var fate := ItemMissing;
      if answer.items[i].Some? {
        var item := answer.items[i].value;
        fate := if item.isError || Marked(answer.rejected, i) then RejectedWith(item) else Resolved(item);
      }
      fates := fates + [fate];
    }
  }

  // ----- The batch as a pipeline -----

  function Whole<V>(items: seq<Item<V>>): (r: seq<Option<Item<V>>>)
    ensures |r| == |items| && forall i | 0 <= i < |items| :: r[i] == Some(items[i])
  {
    if items == [] then [] else Whole(items[..|items| - 1]) + [Some(items[|items| - 1])]
  }

  /** What the pipeline returns or throws. */
  function AnswerOf<V>(e: Execution<V>): Answer<V> {
    match e.outcome
    case Failure(error) => Threw(error)
    case Success(results) => Listed(Whole(results.items), results.rejected)
  }

  /** The answer to command i in the submission that holds it. */
  function OwnItem<V>(host: Host<V>, s: Submission, i: nat): Item<V>
    requires s.lo <= i < s.hi && IsAnswered(host, s)
  {
    if s.Together? then host.attempt(s.lo, s.hi).items[i - s.lo] else host.single(i).item
  }

  /** However the pipeline of a batch is cut and sent: if every frame was answered, each command's promise is
      settled with the answer to that command, resolved unless it came back bad; otherwise all promises
      are rejected with the same error. */
  lemma {:induction false} PromisesGetTheirOwn<V>(host: Host<V>, needsOrder: nat -> bool, n: nat, max: nat, options: Options, i: nat)
    requires !options.throwOnItemError && i < n
    ensures var e := ExecutePipeline(host, needsOrder, n, max, options);
            if Answered(host, e.trace) then
              exists s | s in e.trace && s.lo <= i < s.hi ::
                && IsAnswered(host, s)
                && FateOf(AnswerOf(e), n, i)
                   == (if BadIn(host, s, i) then RejectedWith(OwnItem(host, s, i)) else Resolved(OwnItem(host, s, i)))
            else e.outcome.Failure? && FateOf(AnswerOf(e), n, i) == RejectedWith(e.outcome.error)
  {
    PipelineDelivers(host, needsOrder, n, max, options);
    ReturnsExactly(host, needsOrder, n, max, options);
    var e := ExecutePipeline(host, needsOrder, n, max, options);
    hide ExecutePipeline, Covers, FirstBad;
    if Answered(host, e.trace) {
      var s := HolderOf(e.trace, 0, n, i);
      assert Delivered(host, s, e.outcome.value, 0, i);
      assert IsAnswered(host, s);
    }
  }
}
