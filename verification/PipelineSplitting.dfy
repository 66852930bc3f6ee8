/** Splitting a pipeline: chunks of the advertised size, bisection of frames that are too large,
    and individual execution, with results and rejection marks collected by position. */
module PipelineSplitting {
  import opened Wrappers
  import opened DependencyExecutor
  import opened BatchSchedules
  import OrderingPlan

  /** A result value; `isError` is the source's `instanceof Error`. */
  datatype Item<V> = Item(value: V, isError: bool)

  /** What became of one attempt to send a slice as one frame. Planning decides NotPipelined and
      TooLarge before anything is sent; Lost is every other error. */
  datatype Attempt<V> = Fused(items: seq<Item<V>>) | Lost(error: Item<V>) | NotPipelined | TooLarge

  /** What a command sent on its own returned, or the reason it was rejected with. */
  datatype Reply<V> = Returned(item: Item<V>) | Rejected(item: Item<V>)

  /** The environment: the attempt for each slice [lo, hi) and the reply to each command. */
  datatype Host<!V> = Host(attempt: (nat, nat) -> Attempt<V>, single: nat -> Reply<V>, malformed: Item<V>)

  /** Positional results and the rejection marks beside them; missing marks read as false. */
  datatype Results<V> = Results(items: seq<Item<V>>, rejected: Option<seq<bool>>)

  datatype Options = Options(dependencies: Option<seq<seq<int>>>, ordered: bool, throwOnItemError: bool)

  /** One hand-over of commands [lo, hi) to the server: as one frame, or one by one. */
  datatype Submission = Together(lo: nat, hi: nat)
                      | OneByOne(lo: nat, hi: nat, ordered: bool, dependencies: Option<seq<seq<int>>>)

  /** What was submitted, in order, and what the caller gets: results or a thrown value. */
  datatype Execution<V> = Execution(trace: seq<Submission>, outcome: Result<Results<V>, Item<V>>)

  // ----- Rejection marks -----

  predicate Marked(marks: Option<seq<bool>>, i: int) {
    marks.Some? && 0 <= i < |marks.value| && marks.value[i]
  }

  /** Assign true at a position of a possibly shorter, possibly missing array. */
  function Mark(marks: Option<seq<bool>>, i: nat): (r: Option<seq<bool>>)
    ensures r.Some? && forall k :: Marked(r, k) <==> k == i || Marked(marks, k)
  {
    var held := if marks.Some? then marks.value else [];
    Some(if i < |held| then held[i := true] else held + seq(i - |held|, _ => false) + [true])
  }

  /** The marks of `flags[index..]`, shifted by the offset, added to those already collected. */
  function Collected(flags: seq<bool>, index: nat, offset: nat, marks: Option<seq<bool>>): (r: Option<seq<bool>>)
    requires index <= |flags|
    ensures forall k :: Marked(r, k) <==>
              Marked(marks, k) || (offset + index <= k < offset + |flags| && flags[k - offset])
    ensures r.None? ==> marks.None?
    decreases |flags| - index
  {
    if index == |flags| then marks
    else Collected(flags, index + 1, offset, if flags[index] then Mark(marks, offset + index) else marks)
  }

  function CollectedFrom(flags: Option<seq<bool>>, offset: nat, marks: Option<seq<bool>>): (r: Option<seq<bool>>)
    ensures forall k :: Marked(r, k) <==> Marked(marks, k) || (offset <= k && Marked(flags, k - offset))
  {
    if flags.None? then marks else Collected(flags.value, 0, offset, marks)
  }

  method CollectRejections(flags: Option<seq<bool>>, offset: nat, rejected: Option<seq<bool>>)
    returns (marks: Option<seq<bool>>)
    ensures marks == CollectedFrom(flags, offset, rejected)
  {
    marks := rejected;
    if flags.None? { return; }
    for index := 0 to |flags.value|
      invariant Collected(flags.value, index, offset, marks) == Collected(flags.value, 0, offset, rejected)
    {
      if flags.value[index] { marks := Mark(marks, offset + index); }
    }
  }

  function Merged<V>(first: Results<V>, second: Results<V>): Results<V> {
    Results(first.items + second.items,
            CollectedFrom(second.rejected, |first.items|, CollectedFrom(first.rejected, 0, None)))
  }

  // ----- Surfacing the first error -----

  predicate IsBad<V>(results: Results<V>, i: nat) {
    i < |results.items| && (Marked(results.rejected, i) || results.items[i].isError)
  }

  /** The value a caller that wants item errors thrown gets: that of the first bad item. */
  function Surfaced<V>(results: Results<V>, throwOnItemError: bool, from: nat := 0): (r: Result<Results<V>, Item<V>>)
    requires from <= |results.items|
    ensures r.Success? ==> r.value == results
    ensures r.Success? <==> !throwOnItemError || forall i: nat | from <= i :: !IsBad(results, i)
    ensures r.Failure? ==> exists i: nat :: from <= i && IsBad(results, i) && r.error == results.items[i]
                                            && forall j: nat | from <= j < i :: !IsBad(results, j)
    decreases |results.items| - from
  {
    if !throwOnItemError || from == |results.items| then Success(results)
    else if IsBad(results, from) then Failure(results.items[from])
    else Surfaced(results, throwOnItemError, from + 1)
  }

  // ----- Individual execution -----

  function RepliesOf<V>(host: Host<V>, lo: nat, hi: nat): (items: seq<Item<V>>)
    requires lo <= hi
    ensures |items| == hi - lo && forall k | 0 <= k < hi - lo :: items[k] == host.single(lo + k).item
  {
    seq(hi - lo, k requires 0 <= k < hi - lo => host.single(lo + k).item)
  }

  function RejectionsOf<V>(host: Host<V>, lo: nat, hi: nat): (marks: Option<seq<bool>>)
    requires lo <= hi
    ensures forall k :: Marked(marks, k) <==> 0 <= k < hi - lo && host.single(lo + k).Rejected?
  {
    if lo == hi then None
    else
      var before := RejectionsOf(host, lo, hi - 1);
      if host.single(hi - 1).Rejected? then Mark(before, hi - 1 - lo) else before
  }

  function Individually<V>(host: Host<V>, lo: nat, hi: nat, options: Options): Execution<V>
    requires lo <= hi
  {
    Execution([OneByOne(lo, hi, options.ordered, options.dependencies)],
              Surfaced(Results(RepliesOf(host, lo, hi), RejectionsOf(host, lo, hi)), options.throwOnItemError))
  }

  // ----- Options -----

  /** State-changing control commands force individual execution into batch order. */
  function FallbackOptions(needsOrder: nat -> bool, lo: nat, hi: nat, options: Options): Options {
    if exists i: nat | lo <= i < hi :: needsOrder(i) then options.(ordered := true) else options
  }

  function RemappedRow(row: seq<int>, start: int, end: int): (r: seq<int>)
    ensures forall d :: d in r <==> start <= d + start < end && d + start in row
  {
    if row == [] then []
    else if start <= row[0] < end then [row[0] - start] + RemappedRow(row[1..], start, end)
    else RemappedRow(row[1..], start, end)
  }

  /** The row of command start + k, re-indexed; a missing row is empty. */
  function SlicedRow(deps: seq<seq<int>>, start: nat, end: nat, k: nat): (r: seq<int>)
    ensures forall d :: d in r <==> start + k < |deps| && start <= d + start < end && d + start in deps[start + k]
  {
    RemappedRow(if start + k < |deps| then deps[start + k] else [], start, end)
  }

  /** The dependency rows of commands [start, end), re-indexed; dependencies outside are dropped. */
  function SlicedDependencies(deps: seq<seq<int>>, start: nat, end: nat): (r: seq<seq<int>>)
    requires start <= end
    ensures |r| == end - start
    ensures forall k, d | 0 <= k < end - start ::
              d in r[k] <==> start + k < |deps| && start <= d + start < end && d + start in deps[start + k]
  {
    var r := seq(end - start, k requires 0 <= k < end - start => SlicedRow(deps, start, end, k));
    assert forall k | 0 <= k < end - start :: r[k] == SlicedRow(deps, start, end, k);
    r
  }

  function SliceOptions(options: Options, start: nat, end: nat): Options
    requires start <= end
  {
    if options.dependencies.None? then options
    else options.(dependencies := Some(SlicedDependencies(options.dependencies.value, start, end)))
  }

  function Collecting(options: Options): Options {
    options.(throwOnItemError := false)
  }

  // ----- Chunks and pipelines -----

  /** The first half, the larger one if the halves differ. */
  function Ceil2(n: nat): (half: nat)
    ensures n - half <= half <= n - half + 1
  {
    (n + 1) / 2
  }

  /** Send commands [lo, hi): as one frame if they fit, else in two halves, else one by one. */
  function ExecuteChunk<V>(host: Host<V>, needsOrder: nat -> bool, lo: nat, hi: nat, options: Options): Execution<V>
    requires lo < hi
    decreases hi - lo
  {
    match host.attempt(lo, hi)
    case Fused(items) =>
      Execution([Together(lo, hi)],
                if |items| != hi - lo then Failure(host.malformed)
                else Surfaced(Results(items, None), options.throwOnItemError))
    case Lost(error) => Execution([Together(lo, hi)], Failure(error))
    case NotPipelined => Individually(host, lo, hi, FallbackOptions(needsOrder, lo, hi, options))
    case TooLarge =>
      if hi - lo == 1 then
        var alone := Individually(host, lo, hi, Collecting(options));
        if alone.outcome.Failure? then alone
        else alone.(outcome := Surfaced(alone.outcome.value, options.throwOnItemError))
      else
        var middle := Ceil2(hi - lo);
        var first := ExecuteChunk(host, needsOrder, lo, lo + middle, SliceOptions(Collecting(options), 0, middle));
        if first.outcome.Failure? then first
        else
          var second := ExecuteChunk(host, needsOrder, lo + middle, hi,
                                     SliceOptions(Collecting(options), middle, hi - lo));
          Execution(first.trace + second.trace,
                    if second.outcome.Failure? then second.outcome
                    else Surfaced(Merged(first.outcome.value, second.outcome.value), options.throwOnItemError))
  }

  /** Chunks of at most `max` commands from `start` on, one after another, appended to what the
      earlier chunks gave. */
  function ExecuteChunks<V>(host: Host<V>, needsOrder: nat -> bool, n: nat, max: nat, start: nat, options: Options,
                            sofar: Execution<V>): Execution<V>
    requires max > 0 && sofar.outcome.Success?
    decreases n - start
  {
    if start >= n then sofar.(outcome := Surfaced(sofar.outcome.value, options.throwOnItemError))
    else
      var end := if start + max < n then start + max else n;
      var chunk := ExecuteChunk(host, needsOrder, start, end, SliceOptions(Collecting(options), start, end));
      if chunk.outcome.Failure? then Execution(sofar.trace + chunk.trace, chunk.outcome)
      else
        var done := Results(sofar.outcome.value.items + chunk.outcome.value.items,
                            CollectedFrom(chunk.outcome.value.rejected, start, sofar.outcome.value.rejected));
        ExecuteChunks(host, needsOrder, n, max, start + max, options,
                      Execution(sofar.trace + chunk.trace, Success(done)))
  }

  /** The whole pipeline of n commands. */
  function ExecutePipeline<V>(host: Host<V>, needsOrder: nat -> bool, n: nat, max: nat, options: Options): Execution<V> {
    if n == 0 then Execution([], Success(Results([], None)))
    else if max == 0 then Individually(host, 0, n, FallbackOptions(needsOrder, 0, n, options))
    else if n <= max then ExecuteChunk(host, needsOrder, 0, n, options)
    else ExecuteChunks(host, needsOrder, n, max, 0, options, Execution([], Success(Results([], None))))
  }

  /** The loop of the source over the chunks. */
  method RunPipeline<V>(host: Host<V>, needsOrder: nat -> bool, n: nat, max: nat, options: Options)
    returns (e: Execution<V>)
    ensures e == ExecutePipeline(host, needsOrder, n, max, options)
  {
    hide ExecuteChunk, Surfaced, CollectedFrom, SliceOptions, Individually, FallbackOptions;
    if n == 0 { return Execution([], Success(Results([], None))); }
    if max == 0 { return Individually(host, 0, n, FallbackOptions(needsOrder, 0, n, options)); }
    if n <= max { return ExecuteChunk(host, needsOrder, 0, n, options); }
    var items: seq<Item<V>> := [];
    var rejected: Option<seq<bool>> := None;
    var trace: seq<Submission> := [];
    var start := 0;
    while start < n
      invariant ExecuteChunks(host, needsOrder, n, max, start, options, Execution(trace, Success(Results(items, rejected))))
             == ExecutePipeline(host, needsOrder, n, max, options)
      decreases n - start
    {
      var end := if start + max < n then start + max else n;
      var chunk := ExecuteChunk(host, needsOrder, start, end, SliceOptions(Collecting(options), start, end));
      trace := trace + chunk.trace;
      if chunk.outcome.Failure? { return Execution(trace, chunk.outcome); }
      items := items + chunk.outcome.value.items;
      rejected := CollectRejections(chunk.outcome.value.rejected, start, rejected);
      start := start + max;
    }
    return Execution(trace, Surfaced(Results(items, rejected), options.throwOnItemError));
  }

  // ----- Every command once, every result in its place -----

  /** The submissions cover [lo, hi) without gap or overlap, in order. */
  predicate Covers(trace: seq<Submission>, lo: nat, hi: nat) {
    if trace == [] then lo == hi
    else trace[0].lo == lo && lo < trace[0].hi <= hi && Covers(trace[1..], trace[0].hi, hi)
  }

  ghost predicate CoversPrefix(trace: seq<Submission>, lo: nat, hi: nat) {
    exists m: nat :: m <= hi && Covers(trace, lo, m)
  }

  lemma {:induction false} OneSubmission(sub: Submission)
    requires sub.lo < sub.hi
    ensures Covers([sub], sub.lo, sub.hi) && CoversPrefix([sub], sub.lo, sub.hi)
  {
    assert Covers([sub][1..], sub.hi, sub.hi);
    assert Covers([sub], sub.lo, sub.hi);
  }

  lemma {:induction false} CoversConcat(s: seq<Submission>, t: seq<Submission>, lo: nat, middle: nat, hi: nat)
    requires Covers(s, lo, middle) && Covers(t, middle, hi)
    ensures Covers(s + t, lo, hi) && lo <= middle <= hi
  {
    if s == [] {
      assert s + t == t;
      if t != [] { CoversBounds(t, middle, hi); }
    } else {
      CoversConcat(s[1..], t, s[0].hi, middle, hi);
      assert (s + t)[1..] == s[1..] + t;
    }
  }

  lemma {:induction false} CoversBounds(t: seq<Submission>, lo: nat, hi: nat)
    requires Covers(t, lo, hi)
    ensures lo <= hi
  {
  }

  /** How the result of command i comes about: from its own reply when it was sent alone, from
      its place in the response of its frame otherwise. */
  ghost predicate Delivered<V>(host: Host<V>, sub: Submission, results: Results<V>, lo: nat, i: nat) {
    && sub.lo <= i < sub.hi && lo <= i && i - lo < |results.items|
    && match sub
       case Together(from, to) =>
         && host.attempt(from, to).Fused? && |host.attempt(from, to).items| == to - from
         && results.items[i - lo] == host.attempt(from, to).items[i - from]
         && !Marked(results.rejected, i - lo)
       case OneByOne(_, _, _, _) =>
         && results.items[i - lo] == host.single(i).item
         && (Marked(results.rejected, i - lo) <==> host.single(i).Rejected?)
  }

  /** The results of commands [lo, hi) are each delivered by exactly the submission that holds
      the command. */
  ghost predicate AllDelivered<V>(host: Host<V>, trace: seq<Submission>, results: Results<V>, lo: nat, hi: nat) {
    && |results.items| == hi - lo
    && (forall k: nat :: Marked(results.rejected, k) ==> k < hi - lo)
    && forall s, i: nat | s in trace && s.lo <= i < s.hi :: Delivered(host, s, results, lo, i)
  }

  /** Command i came back bad from the submission that holds it. */
  predicate BadIn<V>(host: Host<V>, sub: Submission, i: nat) {
    && sub.lo <= i < sub.hi
    && match sub
       case Together(from, to) =>
         && host.attempt(from, to).Fused? && |host.attempt(from, to).items| == to - from
         && host.attempt(from, to).items[i - from].isError
       case OneByOne(_, _, _, _) => host.single(i).Rejected? || host.single(i).item.isError
  }

  function BadItem<V>(host: Host<V>, sub: Submission, i: nat): Item<V>
    requires BadIn(host, sub, i)
  {
    match sub
    case Together(from, to) => host.attempt(from, to).items[i - from]
    case OneByOne(_, _, _, _) => host.single(i).item
  }

  ghost predicate NoneBad<V>(host: Host<V>, trace: seq<Submission>) {
    forall s, i: nat | s in trace :: !BadIn(host, s, i)
  }

  /** Of all commands submitted, i is the first that came back bad, with this value. */
  ghost predicate FirstBad<V>(host: Host<V>, trace: seq<Submission>, sub: Submission, i: nat, value: Item<V>) {
    && sub in trace && BadIn(host, sub, i) && value == BadItem(host, sub, i)
    && forall other, j: nat | other in trace && j < i :: !BadIn(host, other, j)
  }

  /** A frame was answered with as many items as it holds commands. */
  predicate IsAnswered<V>(host: Host<V>, sub: Submission) {
    sub.Together? ==> host.attempt(sub.lo, sub.hi).Fused? && |host.attempt(sub.lo, sub.hi).items| == sub.hi - sub.lo
  }

  ghost predicate Answered<V>(host: Host<V>, trace: seq<Submission>) {
    forall s | s in trace :: IsAnswered(host, s)
  }

  /** Everything was answered, so everything is delivered; or, if the caller wants item errors
      thrown and there are any, the value of the first is thrown. */
  ghost predicate Settles<V>(host: Host<V>, e: Execution<V>, lo: nat, hi: nat, throwing: bool) {
    match e.outcome
    case Success(results) => AllDelivered(host, e.trace, results, lo, hi) && (throwing ==> NoneBad(host, e.trace))
    case Failure(value) => throwing && exists s, i: nat :: FirstBad(host, e.trace, s, i, value)
  }

  /** The last frame was lost, or answered with the wrong number of items, and that is thrown. */
  ghost predicate BreaksOff<V>(host: Host<V>, e: Execution<V>) {
    && e.trace != []
    && var last := e.trace[|e.trace| - 1];
       && Answered(host, e.trace[..|e.trace| - 1]) && last.Together? && !IsAnswered(host, last)
       && match host.attempt(last.lo, last.hi)
          case Lost(error) => e.outcome == Failure(error)
          case _ => e.outcome == Failure(host.malformed)
  }

  /** What a part of a pipeline does, whatever the caller wants to happen to item errors: as long
      as every frame is answered it submits all its commands, errors or not, and settles;
      otherwise it breaks off at the first frame that is not, after a gapless prefix. */
  ghost predicate Delivers<V>(host: Host<V>, e: Execution<V>, lo: nat, hi: nat, throwing: bool) {
    if Answered(host, e.trace) then Covers(e.trace, lo, hi) && Settles(host, e, lo, hi, throwing)
    else CoversPrefix(e.trace, lo, hi) && BreaksOff(host, e)
  }

  lemma {:induction false} HolderOf(trace: seq<Submission>, lo: nat, hi: nat, i: nat) returns (s: Submission)
    requires Covers(trace, lo, hi) && lo <= i < hi
    ensures s in trace && s.lo <= i < s.hi
  {
    s := trace[0];
    if i >= s.hi { s := HolderOf(trace[1..], s.hi, hi, i); }
  }

  /** Surfacing the delivered results throws the first bad item there is. */
  lemma {:induction false} SurfacedSettles<V>(host: Host<V>, trace: seq<Submission>, results: Results<V>, lo: nat, hi: nat, throwing: bool)
    requires Covers(trace, lo, hi) && AllDelivered(host, trace, results, lo, hi)
    ensures Settles(host, Execution(trace, Surfaced(results, throwing)), lo, hi, throwing)
  {
    hide Covers, AllDelivered, Surfaced;
    forall s, i: nat | s in trace && BadIn(host, s, i)
      ensures lo <= i && IsBad(results, i - lo)
    {
      BadIsBad(host, trace, results, lo, hi, s, i);
    }
    match Surfaced(results, throwing)
    case Success(_) =>
    case Failure(value) =>
      var k: nat :| IsBad(results, k) && value == results.items[k] && forall j: nat | j < k :: !IsBad(results, j);
      var s := BadHolder(host, trace, results, lo, hi, k);
      forall other, j: nat | other in trace && BadIn(host, other, j)
        ensures j >= lo + k
      {
        BadIsBad(host, trace, results, lo, hi, other, j);
      }
      assert FirstBad(host, trace, s, lo + k, value);
  }

  lemma {:induction false} BadIsBad<V>(host: Host<V>, trace: seq<Submission>, results: Results<V>, lo: nat, hi: nat, s: Submission, i: nat)
    requires Covers(trace, lo, hi) && AllDelivered(host, trace, results, lo, hi) && s in trace && BadIn(host, s, i)
    ensures lo <= i && IsBad(results, i - lo) && results.items[i - lo] == BadItem(host, s, i)
  {
    CoversWithin(trace, lo, hi, s);
    assert Delivered(host, s, results, lo, i);
  }

  lemma {:induction false} BadHolder<V>(host: Host<V>, trace: seq<Submission>, results: Results<V>, lo: nat, hi: nat, k: nat)
    returns (s: Submission)
    requires Covers(trace, lo, hi) && AllDelivered(host, trace, results, lo, hi) && IsBad(results, k)
    ensures s in trace && BadIn(host, s, lo + k) && results.items[k] == BadItem(host, s, lo + k)
  {
    s := HolderOf(trace, lo, hi, lo + k);
    assert Delivered(host, s, results, lo, lo + k);
  }

  /** Two adjacent parts that collect item errors, the second run after the first returned: if
      both return, their results put together are those of the whole; if the second does not, the
      whole breaks off there. */
  lemma {:induction false} InSuccessionDelivers<V>(host: Host<V>, first: Execution<V>, second: Execution<V>, lo: nat, middle: nat, hi: nat,
                                                   marks: Option<seq<bool>>)
    requires lo <= middle && Delivers(host, first, lo, middle, false) && Delivers(host, second, middle, hi, false)
    requires first.outcome.Success?
    requires second.outcome.Success? ==>
               forall k :: Marked(marks, k) <==>
                           || Marked(first.outcome.value.rejected, k)
                           || (middle - lo <= k && Marked(second.outcome.value.rejected, k - (middle - lo)))
    ensures second.outcome.Success? ==>
              && Answered(host, first.trace + second.trace) && Covers(first.trace + second.trace, lo, hi)
              && AllDelivered(host, first.trace + second.trace,
                              Results(first.outcome.value.items + second.outcome.value.items, marks), lo, hi)
    ensures second.outcome.Failure? ==>
              forall throwing :: Delivers(host, Execution(first.trace + second.trace, second.outcome), lo, hi, throwing)
  {
    hide Covers, AllDelivered, IsAnswered;
    if second.outcome.Success? {
      CoversConcat(first.trace, second.trace, lo, middle, hi);
      MergedDelivers(host, first.trace, first.outcome.value, second.trace, second.outcome.value, lo, middle, hi, marks);
    } else {
      var m: nat :| m <= hi && Covers(second.trace, middle, m);
      CoversConcat(first.trace, second.trace, lo, middle, m);
      BreaksOffLater(host, first.trace, second);
    }
  }

  lemma {:induction false} BreaksOffLater<V>(host: Host<V>, front: seq<Submission>, e: Execution<V>)
    requires Answered(host, front) && BreaksOff(host, e)
    ensures BreaksOff(host, Execution(front + e.trace, e.outcome)) && !Answered(host, front + e.trace)
  {
    hide IsAnswered;
    var whole, last := front + e.trace, e.trace[|e.trace| - 1];
    assert whole[..|whole| - 1] == front + e.trace[..|e.trace| - 1];
    assert last in whole;
  }

  lemma {:induction false} FrameDelivers<V>(host: Host<V>, needsOrder: nat -> bool, lo: nat, hi: nat, options: Options)
    requires lo < hi && (host.attempt(lo, hi).Fused? || host.attempt(lo, hi).Lost?)
    ensures Delivers(host, ExecuteChunk(host, needsOrder, lo, hi, options), lo, hi, options.throwOnItemError)
  {
    var sub := Together(lo, hi);
    OneSubmission(sub);
    if IsAnswered(host, sub) {
      SurfacedSettles(host, [sub], Results(host.attempt(lo, hi).items, None), lo, hi, options.throwOnItemError);
    } else {
      assert sub in [sub] && [sub][..0] == [];
    }
  }

  lemma {:induction false} IndividuallyDelivers<V>(host: Host<V>, lo: nat, hi: nat, options: Options)
    requires lo < hi
    ensures Delivers(host, Individually(host, lo, hi, options), lo, hi, options.throwOnItemError)
    ensures var results := Results(RepliesOf(host, lo, hi), RejectionsOf(host, lo, hi));
            AllDelivered(host, Individually(host, lo, hi, options).trace, results, lo, hi)
  {
    OneSubmission(OneByOne(lo, hi, options.ordered, options.dependencies));
    SurfacedSettles(host, [OneByOne(lo, hi, options.ordered, options.dependencies)],
                    Results(RepliesOf(host, lo, hi), RejectionsOf(host, lo, hi)), lo, hi, options.throwOnItemError);
  }

  lemma {:induction false} ChunkDelivers<V>(host: Host<V>, needsOrder: nat -> bool, lo: nat, hi: nat, options: Options)
    requires lo < hi
    ensures Delivers(host, ExecuteChunk(host, needsOrder, lo, hi, options), lo, hi, options.throwOnItemError)
    decreases hi - lo
  {
    hide Delivers, Answered, Covers, Settles, SliceOptions;
    match host.attempt(lo, hi)
    case Fused(_) => FrameDelivers(host, needsOrder, lo, hi, options);
    case Lost(_) => FrameDelivers(host, needsOrder, lo, hi, options);
    case NotPipelined => IndividuallyDelivers(host, lo, hi, FallbackOptions(needsOrder, lo, hi, options));
    case TooLarge =>
      if hi - lo == 1 {
        AloneDelivers(host, lo, hi, options);
      } else {
        var middle := Ceil2(hi - lo);
        var left, right := SliceOptions(Collecting(options), 0, middle), SliceOptions(Collecting(options), middle, hi - lo);
        ChunkDelivers(host, needsOrder, lo, lo + middle, left);
        ChunkDelivers(host, needsOrder, lo + middle, hi, right);
        BisectionDelivers(host, needsOrder, lo, hi, options);
      }
  }

  /** A chunk of several commands whose frame is too large is the succession of its halves. */
  lemma {:induction false} BisectionDelivers<V>(host: Host<V>, needsOrder: nat -> bool, lo: nat, hi: nat, options: Options)
    requires hi - lo > 1 && host.attempt(lo, hi).TooLarge?
    requires var middle := Ceil2(hi - lo);
             var left, right := SliceOptions(Collecting(options), 0, middle), SliceOptions(Collecting(options), middle, hi - lo);
             && Delivers(host, ExecuteChunk(host, needsOrder, lo, lo + middle, left), lo, lo + middle, left.throwOnItemError)
             && Delivers(host, ExecuteChunk(host, needsOrder, lo + middle, hi, right), lo + middle, hi, right.throwOnItemError)
    ensures Delivers(host, ExecuteChunk(host, needsOrder, lo, hi, options), lo, hi, options.throwOnItemError)
  {
    hide Delivers, SliceOptions, Surfaced, Merged;
    var middle := Ceil2(hi - lo);
    var left, right := SliceOptions(Collecting(options), 0, middle), SliceOptions(Collecting(options), middle, hi - lo);
    SliceCollects(options, 0, middle);
    SliceCollects(options, middle, hi - lo);
    HalvesDeliver(host, ExecuteChunk(host, needsOrder, lo, lo + middle, left),
                  ExecuteChunk(host, needsOrder, lo + middle, hi, right), lo, lo + middle, hi, options.throwOnItemError);
  }

  lemma {:induction false} SliceCollects(options: Options, start: nat, end: nat)
    requires start <= end
    ensures !SliceOptions(Collecting(options), start, end).throwOnItemError
  {
  }

  /** A command whose frame alone is too large is sent on its own. */
  lemma {:induction false} AloneDelivers<V>(host: Host<V>, lo: nat, hi: nat, options: Options)
    requires lo < hi
    ensures var alone := Individually(host, lo, hi, Collecting(options));
            && alone.outcome.Success?
            && Delivers(host, alone.(outcome := Surfaced(alone.outcome.value, options.throwOnItemError)), lo, hi, options.throwOnItemError)
  {
    var alone := Individually(host, lo, hi, Collecting(options));
    IndividuallyDelivers(host, lo, hi, Collecting(options));
    OneSubmission(alone.trace[0]);
    SurfacedSettles(host, alone.trace, alone.outcome.value, lo, hi, options.throwOnItemError);
  }

  lemma {:induction false} PrefixIsShorter(trace: seq<Submission>, lo: nat, middle: nat, hi: nat)
    requires CoversPrefix(trace, lo, middle) && middle <= hi
    ensures CoversPrefix(trace, lo, hi)
  {
    var m: nat :| m <= middle && Covers(trace, lo, m);
  }

  /** The two halves of a chunk: the second is sent unless the first broke off, and only then are
      item errors surfaced. */
  lemma {:induction false} HalvesDeliver<V>(host: Host<V>, first: Execution<V>, second: Execution<V>, lo: nat, middle: nat, hi: nat,
                                            throwing: bool)
    requires lo <= middle <= hi && Delivers(host, first, lo, middle, false) && Delivers(host, second, middle, hi, false)
    ensures first.outcome.Failure? ==> Delivers(host, first, lo, hi, throwing)
    ensures first.outcome.Success? && second.outcome.Failure? ==>
              Delivers(host, Execution(first.trace + second.trace, second.outcome), lo, hi, throwing)
    ensures first.outcome.Success? && second.outcome.Success? ==>
              Delivers(host, Execution(first.trace + second.trace, Surfaced(Merged(first.outcome.value, second.outcome.value), throwing)),
                       lo, hi, throwing)
  {
    hide Covers, Answered, AllDelivered, Surfaced;
    if first.outcome.Failure? {
      PrefixIsShorter(first.trace, lo, middle, hi);
    } else if second.outcome.Failure? {
      InSuccessionDelivers(host, first, second, lo, middle, hi, None);
    } else {
      FirstLength(host, first, lo, middle);
      var merged := Merged(first.outcome.value, second.outcome.value);
      InSuccessionDelivers(host, first, second, lo, middle, hi, merged.rejected);
      SurfacedSettles(host, first.trace + second.trace, merged, lo, hi, throwing);
    }
  }

  lemma {:induction false} FirstLength<V>(host: Host<V>, e: Execution<V>, lo: nat, hi: nat)
    requires Delivers(host, e, lo, hi, false) && e.outcome.Success?
    ensures |e.outcome.value.items| == hi - lo
  {
  }

  /** Appending the results of adjacent ranges, marks shifted, keeps every result in its place. */
  lemma {:induction false} MergedDelivers<V>(host: Host<V>, s: seq<Submission>, first: Results<V>, t: seq<Submission>, second: Results<V>,
                          lo: nat, middle: nat, hi: nat, marks: Option<seq<bool>>)
    requires Covers(s, lo, middle) && Covers(t, middle, hi)
    requires AllDelivered(host, s, first, lo, middle) && AllDelivered(host, t, second, middle, hi)
    requires lo <= middle
    requires forall k :: Marked(marks, k) <==> Marked(first.rejected, k)
                                               || (middle - lo <= k && Marked(second.rejected, k - (middle - lo)))
    ensures AllDelivered(host, s + t, Results(first.items + second.items, marks), lo, hi)
  {
    var all := Results(first.items + second.items, marks);
    CoversBounds(t, middle, hi);
    forall x, i: nat | x in s + t && x.lo <= i < x.hi
      ensures Delivered(host, x, all, lo, i)
    {
      if x in s {
        CoversWithin(s, lo, middle, x);
        assert Delivered(host, x, first, lo, i);
      } else {
        CoversWithin(t, middle, hi, x);
        assert Delivered(host, x, second, middle, i);
        assert !Marked(first.rejected, i - lo);
      }
    }
  }

  lemma {:induction false} CoversWithin(t: seq<Submission>, lo: nat, hi: nat, x: Submission)
    requires Covers(t, lo, hi) && x in t
    ensures lo <= x.lo < x.hi <= hi
  {
    if x != t[0] { CoversWithin(t[1..], t[0].hi, hi, x); }
    CoversBounds(t[1..], t[0].hi, hi);
  }

  /** Chunk after chunk, item errors collected until the end. */
  lemma {:induction false} ChunksDeliver<V>(host: Host<V>, needsOrder: nat -> bool, n: nat, max: nat, start: nat,
                                            options: Options, sofar: Execution<V>)
    requires max > 0 && start < n + max && sofar.outcome.Success?
    requires Delivers(host, sofar, 0, if start < n then start else n, false)
    ensures Delivers(host, ExecuteChunks(host, needsOrder, n, max, start, options, sofar), 0, n, options.throwOnItemError)
    decreases n - start
  {
    hide ExecuteChunk, AllDelivered, CoversPrefix, Covers, CollectedFrom, SliceOptions, Individually, Delivers, Surfaced;
    if start < n {
      var end := if start + max < n then start + max else n;
      var sliced := SliceOptions(Collecting(options), start, end);
      var chunk := ExecuteChunk(host, needsOrder, start, end, sliced);
      SliceCollects(options, start, end);
      ChunkDelivers(host, needsOrder, start, end, sliced);
      OneMoreChunk(host, sofar, chunk, start, end, n, options.throwOnItemError);
      if chunk.outcome.Success? {
        ChunksDeliver(host, needsOrder, n, max, start + max, options, Appended(sofar, chunk, start));
      }
    } else {
      AllChunksDeliver(host, sofar, n, options.throwOnItemError);
    }
  }

  /** After the last chunk the item errors are surfaced. */
  lemma {:induction false} AllChunksDeliver<V>(host: Host<V>, sofar: Execution<V>, n: nat, throwing: bool)
    requires sofar.outcome.Success? && Delivers(host, sofar, 0, n, false)
    ensures Delivers(host, sofar.(outcome := Surfaced(sofar.outcome.value, throwing)), 0, n, throwing)
  {
    hide AllDelivered, Surfaced, Covers, CoversPrefix;
    SurfacedSettles(host, sofar.trace, sofar.outcome.value, 0, n, throwing);
  }

  /** The results of one more chunk behind those of the earlier ones. */
  function Appended<V>(sofar: Execution<V>, chunk: Execution<V>, start: nat): Execution<V>
    requires sofar.outcome.Success? && chunk.outcome.Success?
  {
    Execution(sofar.trace + chunk.trace,
              Success(Results(sofar.outcome.value.items + chunk.outcome.value.items,
                              CollectedFrom(chunk.outcome.value.rejected, start, sofar.outcome.value.rejected))))
  }

  lemma {:induction false} OneMoreChunk<V>(host: Host<V>, sofar: Execution<V>, chunk: Execution<V>, start: nat, end: nat, n: nat, throwing: bool)
    requires end <= n && sofar.outcome.Success?
    requires Delivers(host, sofar, 0, start, false) && Delivers(host, chunk, start, end, false)
    ensures chunk.outcome.Success? ==> Delivers(host, Appended(sofar, chunk, start), 0, end, false)
    ensures chunk.outcome.Failure? ==> Delivers(host, Execution(sofar.trace + chunk.trace, chunk.outcome), 0, n, throwing)
  {
    hide Covers, AllDelivered, IsAnswered;
    if chunk.outcome.Success? {
      InSuccessionDelivers(host, sofar, chunk, 0, start, end, Appended(sofar, chunk, start).outcome.value.rejected);
    } else {
      InSuccessionDelivers(host, sofar, chunk, 0, start, end, None);
      assert Delivers(host, Execution(sofar.trace + chunk.trace, chunk.outcome), 0, end, throwing);
      BreaksOffLater(host, sofar.trace, chunk);
      PrefixIsShorter(sofar.trace + chunk.trace, 0, end, n);
    }
  }

  lemma {:induction false} NothingDelivers<V>(host: Host<V>, throwing: bool)
    ensures Delivers(host, Execution([], Success(Results([], None))), 0, 0, throwing)
  {
    assert Covers([], 0, 0);
  }

  /** However the pipeline is cut, bisected or sent one by one, and whether or not item errors are
      thrown: as long as every frame is answered, each command is submitted exactly once, in
      order; then either each result and rejection mark is at its own position, or the caller
      wants item errors thrown and gets the value of the first bad item of the whole pipeline. */
  lemma {:induction false} PipelineDelivers<V>(host: Host<V>, needsOrder: nat -> bool, n: nat, max: nat, options: Options)
    ensures Delivers(host, ExecutePipeline(host, needsOrder, n, max, options), 0, n, options.throwOnItemError)
  {
    hide Delivers;
    if n == 0 {
      NothingDelivers(host, options.throwOnItemError);
    } else if max == 0 {
      IndividuallyDelivers(host, 0, n, FallbackOptions(needsOrder, 0, n, options));
    } else if n <= max {
      ChunkDelivers(host, needsOrder, 0, n, options);
    } else {
      NothingDelivers<V>(host, false);
      ChunksDeliver(host, needsOrder, n, max, 0, options, Execution([], Success(Results([], None))));
    }
  }

  /** Results are returned exactly when every frame was answered and nothing is to be thrown. */
  lemma {:induction false} ReturnsExactly<V>(host: Host<V>, needsOrder: nat -> bool, n: nat, max: nat, options: Options)
    ensures var e := ExecutePipeline(host, needsOrder, n, max, options);
            e.outcome.Success? <==> Answered(host, e.trace) && (options.throwOnItemError ==> NoneBad(host, e.trace))
  {
    PipelineDelivers(host, needsOrder, n, max, options);
    hide ExecutePipeline, Covers, AllDelivered, IsAnswered, BadIn;
  }

  // ----- Dependencies survive the splitting -----

  /** The rows given to commands [lo, hi) list exactly the dependencies that lie in that range. */
  ghost predicate Restricts(local: seq<seq<int>>, deps: seq<seq<int>>, lo: nat, hi: nat) {
    forall k: nat, d: nat | k < hi - lo :: d in Prerequisites(local, k) <==> lo + d in Prerequisites(deps, lo + k)
  }

  ghost predicate OptionsRestrict(options: Options, deps: seq<seq<int>>, lo: nat, hi: nat) {
    options.ordered || (options.dependencies.Some? && Restricts(options.dependencies.value, deps, lo, hi))
  }

  lemma {:induction false} SliceRestricts(options: Options, deps: seq<seq<int>>, lo: nat, hi: nat, start: nat, end: nat)
    requires start <= end <= hi - lo && OptionsRestrict(options, deps, lo, hi)
    ensures OptionsRestrict(SliceOptions(Collecting(options), start, end), deps, lo + start, lo + end)
  {
    hide Prerequisites, SlicedDependencies, Restricts;
    if !options.ordered { SlicedRestricts(options.dependencies.value, deps, lo, hi, start, end); }
  }

  lemma {:induction false} SlicedRestricts(local: seq<seq<int>>, deps: seq<seq<int>>, lo: nat, hi: nat, start: nat, end: nat)
    requires start <= end <= hi - lo && Restricts(local, deps, lo, hi)
    ensures Restricts(SlicedDependencies(local, start, end), deps, lo + start, lo + end)
  {
    hide Prerequisites, SlicedDependencies;
    forall k: nat, d: nat | k < lo + end - (lo + start)
      ensures d in Prerequisites(SlicedDependencies(local, start, end), k)
              <==> lo + start + d in Prerequisites(deps, lo + start + k)
    {
      SlicedPrerequisite(local, start, end, k, d);
      assert start + d in Prerequisites(local, start + k) <==> lo + (start + d) in Prerequisites(deps, lo + (start + k));
    }
  }

  /** Within the slice, a command has the prerequisites it had before, under their new positions. */
  lemma SlicedPrerequisite(local: seq<seq<int>>, start: nat, end: nat, k: nat, d: nat)
    requires start <= end && k < end - start
    ensures d in Prerequisites(SlicedDependencies(local, start, end), k) <==> start + d in Prerequisites(local, start + k)
  {
  }

  // ----- Which commands are sent together, and which in order -----

  ghost predicate NeedsOrderIn(needsOrder: nat -> bool, lo: nat, hi: nat) {
    exists i: nat :: lo <= i < hi && needsOrder(i)
  }

  /** At most `max` commands go together. Several commands sent one by one keep their order if the
      caller asks for it or one of them is a state-changing control command, and only then. */
  ghost predicate SentAsAllowed(sub: Submission, needsOrder: nat -> bool, max: nat, ordered: bool) {
    && (sub.Together? ==> sub.hi - sub.lo <= max)
    && (sub.OneByOne? && sub.hi - sub.lo > 1 ==> (sub.ordered <==> ordered || NeedsOrderIn(needsOrder, sub.lo, sub.hi)))
  }

  ghost predicate AllSentAsAllowed(trace: seq<Submission>, needsOrder: nat -> bool, max: nat, ordered: bool) {
    forall sub | sub in trace :: SentAsAllowed(sub, needsOrder, max, ordered)
  }

  lemma {:induction false} IndividuallyAsAllowed<V>(host: Host<V>, needsOrder: nat -> bool, lo: nat, hi: nat, options: Options, max: nat)
    requires lo <= hi
    ensures AllSentAsAllowed(Individually(host, lo, hi, FallbackOptions(needsOrder, lo, hi, options)).trace, needsOrder, max, options.ordered)
    ensures hi - lo == 1 ==> AllSentAsAllowed(Individually(host, lo, hi, Collecting(options)).trace, needsOrder, max, options.ordered)
  {
    assert NeedsOrderIn(needsOrder, lo, hi) <==> exists i: nat | lo <= i < hi :: needsOrder(i);
  }

  lemma BothAsAllowed(first: seq<Submission>, second: seq<Submission>, needsOrder: nat -> bool, max: nat, ordered: bool)
    requires AllSentAsAllowed(first, needsOrder, max, ordered) && AllSentAsAllowed(second, needsOrder, max, ordered)
    ensures AllSentAsAllowed(first + second, needsOrder, max, ordered)
  {
    hide SentAsAllowed;
  }

  lemma SliceKeepsOrdered(options: Options, start: nat, end: nat)
    requires start <= end
    ensures SliceOptions(Collecting(options), start, end).ordered == options.ordered
  {
    hide SlicedDependencies;
  }

  lemma {:induction false} ChunkAsAllowed<V>(host: Host<V>, needsOrder: nat -> bool, lo: nat, hi: nat, options: Options, max: nat)
    requires lo < hi && hi - lo <= max
    ensures AllSentAsAllowed(ExecuteChunk(host, needsOrder, lo, hi, options).trace, needsOrder, max, options.ordered)
    decreases hi - lo
  {
    hide AllSentAsAllowed, Individually, SliceOptions, Surfaced, Merged, FallbackOptions;
    IndividuallyAsAllowed(host, needsOrder, lo, hi, options, max);
    FrameAsAllowed(lo, hi, needsOrder, max, options.ordered);
    if host.attempt(lo, hi).TooLarge? && hi - lo > 1 {
      var middle := Ceil2(hi - lo);
      var left, right := SliceOptions(Collecting(options), 0, middle), SliceOptions(Collecting(options), middle, hi - lo);
      SliceKeepsOrdered(options, 0, middle);
      SliceKeepsOrdered(options, middle, hi - lo);
      ChunkAsAllowed(host, needsOrder, lo, lo + middle, left, max);
      ChunkAsAllowed(host, needsOrder, lo + middle, hi, right, max);
      BothAsAllowed(ExecuteChunk(host, needsOrder, lo, lo + middle, left).trace,
                    ExecuteChunk(host, needsOrder, lo + middle, hi, right).trace, needsOrder, max, options.ordered);
    }
  }

  lemma FrameAsAllowed(lo: nat, hi: nat, needsOrder: nat -> bool, max: nat, ordered: bool)
    requires hi - lo <= max
    ensures AllSentAsAllowed([Together(lo, hi)], needsOrder, max, ordered)
  {
  }

  lemma {:induction false} ChunksAsAllowed<V>(host: Host<V>, needsOrder: nat -> bool, n: nat, max: nat, start: nat,
                                              options: Options, sofar: Execution<V>)
    requires max > 0 && sofar.outcome.Success? && AllSentAsAllowed(sofar.trace, needsOrder, max, options.ordered)
    ensures AllSentAsAllowed(ExecuteChunks(host, needsOrder, n, max, start, options, sofar).trace, needsOrder, max, options.ordered)
    decreases n - start
  {
    hide AllSentAsAllowed, ExecuteChunk, SliceOptions, Surfaced, CollectedFrom;
    if start < n {
      var end := if start + max < n then start + max else n;
      var sliced := SliceOptions(Collecting(options), start, end);
      SliceKeepsOrdered(options, start, end);
      ChunkAsAllowed(host, needsOrder, start, end, sliced, max);
      var chunk := ExecuteChunk(host, needsOrder, start, end, sliced);
      BothAsAllowed(sofar.trace, chunk.trace, needsOrder, max, options.ordered);
      if chunk.outcome.Success? {
        ChunksAsAllowed(host, needsOrder, n, max, start + max, options, Appended(sofar, chunk, start));
      }
    }
  }

  /** Of every submission of every pipeline: no frame holds more commands than the server takes, and
      commands sent one by one are ordered exactly when that is asked for or one of them needs it. */
  lemma {:induction false} PipelineAsAllowed<V>(host: Host<V>, needsOrder: nat -> bool, n: nat, max: nat, options: Options)
    ensures AllSentAsAllowed(ExecutePipeline(host, needsOrder, n, max, options).trace, needsOrder, max, options.ordered)
  {
    if n == 0 {
    } else if max == 0 {
      IndividuallyAsAllowed(host, needsOrder, 0, n, options, max);
    } else if n <= max {
      ChunkAsAllowed(host, needsOrder, 0, n, options, max);
    } else {
      ChunksAsAllowed(host, needsOrder, n, max, 0, options, Execution([], Success(Results([], None))));
    }
  }

  /** An order in which the server may carry out the commands of one submission: their own order
      for a frame and for ordered execution, any order that respects the rows otherwise. */
  ghost predicate MayRunInOrder(sub: Submission, order: seq<nat>) {
    && Distinct(order)
    && (forall a | 0 <= a < |order| :: sub.lo <= order[a] < sub.hi)
    && (forall i: nat | sub.lo <= i < sub.hi :: i in order)
    && match sub
       case Together(_, _) => Increasing(order)
       case OneByOne(_, _, ordered, dependencies) =>
         if ordered then Increasing(order)
         else dependencies.Some? ==>
           forall a | 0 <= a < |order| :: forall d: nat | Lists(sub, order[a], d) :: d in order[..a]
  }

  /** The rows of a submission list command d for command i. */
  predicate Lists(sub: Submission, i: nat, d: nat)
    requires sub.OneByOne? && sub.dependencies.Some?
  {
    sub.lo <= d && sub.lo <= i && d - sub.lo in Prerequisites(sub.dependencies.value, i - sub.lo)
  }

  predicate Increasing(order: seq<nat>) {
    forall a, b | 0 <= a < b < |order| :: order[a] < order[b]
  }

  function Flatten(orders: seq<seq<nat>>): seq<nat> {
    if orders == [] then [] else Flatten(orders[..|orders| - 1]) + orders[|orders| - 1]
  }

  /** Every submission of the trace was given rows that restrict the pipeline's own. */
  ghost predicate TraceRestricts(trace: seq<Submission>, deps: seq<seq<int>>) {
    forall s | s in trace && s.OneByOne? ::
      s.ordered || (s.dependencies.Some? && Restricts(s.dependencies.value, deps, s.lo, s.hi))
  }

  lemma {:induction false} OneByOneRestricts<V>(host: Host<V>, lo: nat, hi: nat, given: Options, options: Options, deps: seq<seq<int>>)
    requires lo <= hi && OptionsRestrict(options, deps, lo, hi)
    requires given.ordered || (given.ordered == options.ordered && given.dependencies == options.dependencies)
    ensures TraceRestricts(Individually(host, lo, hi, given).trace, deps)
  {
    hide Restricts;
  }

  lemma TogetherRestricts(lo: nat, hi: nat, deps: seq<seq<int>>)
    ensures TraceRestricts([Together(lo, hi)], deps)
  {
  }

  lemma {:induction false} TracesRestrict(first: seq<Submission>, second: seq<Submission>, deps: seq<seq<int>>)
    requires TraceRestricts(first, deps) && TraceRestricts(second, deps)
    ensures TraceRestricts(first + second, deps)
  {
    hide Restricts;
  }

  lemma {:induction false} ChunkRestricts<V>(host: Host<V>, needsOrder: nat -> bool, lo: nat, hi: nat, options: Options,
                                             deps: seq<seq<int>>)
    requires lo < hi && OptionsRestrict(options, deps, lo, hi)
    ensures TraceRestricts(ExecuteChunk(host, needsOrder, lo, hi, options).trace, deps)
    decreases hi - lo
  {
    hide Restricts, SlicedDependencies, OptionsRestrict, TraceRestricts, Individually, SliceOptions, Surfaced, Merged;
    OneByOneRestricts(host, lo, hi, FallbackOptions(needsOrder, lo, hi, options), options, deps);
    OneByOneRestricts(host, lo, hi, Collecting(options), options, deps);
    TogetherRestricts(lo, hi, deps);
    if host.attempt(lo, hi).TooLarge? && hi - lo > 1 {
      var middle := Ceil2(hi - lo);
      var left, right := SliceOptions(Collecting(options), 0, middle), SliceOptions(Collecting(options), middle, hi - lo);
      SliceRestricts(options, deps, lo, hi, 0, middle);
      SliceRestricts(options, deps, lo, hi, middle, hi - lo);
      ChunkRestricts(host, needsOrder, lo, lo + middle, left, deps);
      ChunkRestricts(host, needsOrder, lo + middle, hi, right, deps);
      TracesRestrict(ExecuteChunk(host, needsOrder, lo, lo + middle, left).trace,
                     ExecuteChunk(host, needsOrder, lo + middle, hi, right).trace, deps);
    }
  }

  lemma {:induction false} ChunksRestrict<V>(host: Host<V>, needsOrder: nat -> bool, n: nat, max: nat, start: nat,
                                             options: Options, sofar: Execution<V>, deps: seq<seq<int>>)
    requires max > 0 && sofar.outcome.Success? && OptionsRestrict(options, deps, 0, n)
    requires TraceRestricts(sofar.trace, deps)
    ensures TraceRestricts(ExecuteChunks(host, needsOrder, n, max, start, options, sofar).trace, deps)
    decreases n - start
  {
    hide Restricts, SlicedDependencies, OptionsRestrict, TraceRestricts, ExecuteChunk, SliceOptions, Surfaced, CollectedFrom;
    if start < n {
      var end := if start + max < n then start + max else n;
      var sliced := SliceOptions(Collecting(options), start, end);
      SliceRestricts(options, deps, 0, n, start, end);
      ChunkRestricts(host, needsOrder, start, end, sliced, deps);
      var chunk := ExecuteChunk(host, needsOrder, start, end, sliced);
      TracesRestrict(sofar.trace, chunk.trace, deps);
      if chunk.outcome.Success? {
        ChunksRestrict(host, needsOrder, n, max, start + max, options, Appended(sofar, chunk, start), deps);
      }
    }
  }

  lemma {:induction false} PipelineRestricts<V>(host: Host<V>, needsOrder: nat -> bool, n: nat, max: nat, options: Options,
                             deps: seq<seq<int>>)
    requires options.ordered || options.dependencies == Some(deps)
    ensures TraceRestricts(ExecutePipeline(host, needsOrder, n, max, options).trace, deps)
  {
    assert OptionsRestrict(options, deps, 0, n);
    if n == 0 || max == 0 {
    } else if n <= max {
      ChunkRestricts(host, needsOrder, 0, n, options, deps);
    } else {
      ChunksRestrict(host, needsOrder, n, max, 0, options, Execution([], Success(Results([], None))), deps);
    }
  }

  /** Since slices run one after another and dependencies point backwards, an order allowed for
      each submission gives an order of the whole pipeline that keeps every dependency. */
  lemma {:induction false} SubmissionsKeepDependencies(trace: seq<Submission>, orders: seq<seq<nat>>, deps: seq<seq<int>>, n: nat)
    requires |trace| == |orders| && Covers(trace, 0, n) && TraceRestricts(trace, deps)
    requires forall s | 0 <= s < |trace| :: MayRunInOrder(trace[s], orders[s])
    ensures IsPermutation(Flatten(orders), n) && PrerequisitesFirst(deps, Flatten(orders))
    decreases |trace|
  {
    if trace != [] {
      var last := |trace| - 1;
      CoversInit(trace, 0, n);
      SubmissionsKeepDependencies(trace[..last], orders[..last], deps, trace[last].lo);
      OneMoreSubmission(Flatten(orders[..last]), trace[last], orders[last], deps);
    }
  }

  lemma {:induction false} CoversInit(trace: seq<Submission>, lo: nat, hi: nat)
    requires trace != [] && Covers(trace, lo, hi)
    ensures Covers(trace[..|trace| - 1], lo, trace[|trace| - 1].lo)
    ensures trace[|trace| - 1].lo < trace[|trace| - 1].hi == hi
  {
    if |trace| > 1 {
      CoversInit(trace[1..], trace[0].hi, hi);
      assert trace[..|trace| - 1][1..] == trace[1..][..|trace| - 2];
      CoversBounds(trace[..|trace| - 1][1..], trace[0].hi, trace[|trace| - 1].lo);
    }
  }

  lemma {:induction false} OneMoreSubmission(front: seq<nat>, sub: Submission, order: seq<nat>, deps: seq<seq<int>>)
    requires sub.lo < sub.hi && IsPermutation(front, sub.lo) && PrerequisitesFirst(deps, front)
    requires MayRunInOrder(sub, order) && TraceRestricts([sub], deps)
    ensures IsPermutation(front + order, sub.hi) && PrerequisitesFirst(deps, front + order)
  {
    var all := front + order;
    forall i: nat | i < sub.hi
      ensures i in all
    {
      assert i in front || i in order;
    }
    forall a | 0 <= a < |all|
      ensures forall d | d in Prerequisites(deps, all[a]) :: d in all[..a]
    {
      if a < |front| {
        assert all[..a] == front[..a];
      } else {
        assert all[..a] == front + order[..a - |front|];
        forall d | d in Prerequisites(deps, all[a])
          ensures d in front || d in order[..a - |front|]
        {
          if d >= sub.lo { EarlierInSubmission(sub, order, deps, a - |front|, d); }
        }
      }
    }
  }

  lemma {:induction false} EarlierInSubmission(sub: Submission, order: seq<nat>, deps: seq<seq<int>>, a: nat, d: nat)
    requires MayRunInOrder(sub, order) && TraceRestricts([sub], deps)
    requires a < |order| && sub.lo <= d && d in Prerequisites(deps, order[a])
    ensures d in order[..a]
  {
    if sub.Together? || sub.ordered {
      hide TraceRestricts, Lists;
      EarlierWhenIncreasing(order, a, d);
    } else {
      EarlierWhenListed(sub, deps, order[a], d);
    }
  }

  lemma {:induction false} EarlierWhenIncreasing(order: seq<nat>, a: nat, d: nat)
    requires Increasing(order) && a < |order| && d in order && d < order[a]
    ensures d in order[..a]
  {
    var b :| 0 <= b < |order| && order[b] == d;
    assert order[..a][b] == d;
  }

  lemma {:induction false} EarlierWhenListed(sub: Submission, deps: seq<seq<int>>, i: nat, d: nat)
    requires sub.OneByOne? && !sub.ordered && TraceRestricts([sub], deps) && sub.lo <= i < sub.hi
    requires sub.lo <= d && d in Prerequisites(deps, i)
    ensures sub.dependencies.Some? && Lists(sub, i, d)
  {
    assert sub in [sub];
    assert sub.lo + (d - sub.lo) in Prerequisites(deps, sub.lo + (i - sub.lo));
  }

  /** A planned batch whose frames are all answered has had the effect of running it in order,
      however it was cut up, whatever order the server chose inside a submission, and whether it
      came back with results or with the error of an item. */
  lemma {:induction false} SplitPipelineIsSequential<V, W, R>(host: Host<V>, needsOrder: nat -> bool, max: nat, options: Options,
                                           cmds: seq<Command<W, R>>, plan: OrderingPlan.Plan, orders: seq<seq<nat>>,
                                           store: map<OrderingPlan.Key, W>)
    requires OrderingPlan.IsPlan(AccessesOf(cmds), plan)
    requires options.dependencies == Some(AsIntegers(plan.dependencies))
    requires var e := ExecutePipeline(host, needsOrder, |cmds|, max, options);
             && Answered(host, e.trace) && |orders| == |e.trace|
             && forall s | 0 <= s < |orders| :: MayRunInOrder(e.trace[s], orders[s])
    ensures IsPermutation(Flatten(orders), |cmds|)
    ensures RunInOrder(cmds, Flatten(orders), store) == RunInOrder(cmds, Sequential(|cmds|), store)
  {
    var e := ExecutePipeline(host, needsOrder, |cmds|, max, options);
    var deps := AsIntegers(plan.dependencies);
    PipelineDelivers(host, needsOrder, |cmds|, max, options);
    PipelineRestricts(host, needsOrder, |cmds|, max, options, deps);
    SubmissionsKeepDependencies(e.trace, orders, deps, |cmds|);
    EffectsAreSequential(cmds, plan, Flatten(orders), store);
  }
}
