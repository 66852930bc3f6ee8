/** The compact encoders and their decoders, end to end and told of the arguments themselves: which
    requests are accepted, and that each part of one arrives as the argument it was. */
module CompactRecovery {
  import opened Wrappers
  import opened Bytes
  import opened CompactFields
  import opened CompactPlan
  import opened CompactFlow
  import opened CompactFlowMany
  import opened CompactFlowSingle
  import opened CompactRequest
  import opened CompactReaders

  /** Bytes that are fewer than 2^32 - 1. */
  predicate Writable(a: Arg) {
    a.Scalar? && |a.bytes| < 0xffff_ffff
  }

  predicate IsInteger(a: Arg) {
    a.Scalar? && a.integer.Some?
  }

  predicate SafeInteger(v: Number) {
    v.Safe? && -0x1f_ffff_ffff_ffff <= v.n <= 0x1f_ffff_ffff_ffff
  }

  predicate SafeTime(v: Number) {
    v.Safe? && 0 <= v.n <= 0x1f_ffff_ffff_ffff
  }

  predicate AbsentOrWritable(a: Option<Arg>) {
    a.Some? ==> Writable(a.value)
  }

  /** The bytes of an argument, if it is given. */
  function Sent(a: Option<Arg>): Option<seq<byte>>
    requires AbsentOrWritable(a)
  {
    if a.Some? then Some(a.value.bytes) else None
  }

  // ----- Completions and retries: identifier, partition if mixed, lease, fencing value -----

  predicate CompletionGiven(raw: seq<Arg>, mixed: bool, i: nat) {
    if mixed then
      4 * i + 3 < |raw| && Writable(raw[4 * i]) && Writable(raw[4 * i + 1]) && Writable(raw[4 * i + 2]) && IsInteger(raw[4 * i + 3])
    else
      3 * i + 2 < |raw| && Writable(raw[3 * i]) && Writable(raw[3 * i + 1]) && IsInteger(raw[3 * i + 2])
  }

  function Completion(raw: seq<Arg>, mixed: bool, i: nat): Item
    requires CompletionGiven(raw, mixed, i)
  {
    if mixed then Item(raw[4 * i].bytes, Some(raw[4 * i + 1].bytes), Some(raw[4 * i + 2].bytes), raw[4 * i + 3].integer.value)
    else Item(raw[3 * i].bytes, None, Some(raw[3 * i + 1].bytes), raw[3 * i + 2].integer.value)
  }

  ghost predicate CompletionsGiven(raw: seq<Arg>, mixed: bool, n: nat) {
    forall i: nat | i < n :: CompletionGiven(raw, mixed, i)
  }

  ghost function Completions(raw: seq<Arg>, mixed: bool, n: nat): seq<Item>
    requires CompletionsGiven(raw, mixed, n)
  {
    seq(n, i requires 0 <= i < n && CompletionGiven(raw, mixed, i) => Completion(raw, mixed, i))
  }

  /** The item is a scalar, long or short. */
  predicate Scalar(raw: seq<Arg>, k: nat) {
    k < |raw| && raw[k].Scalar?
  }

  /** A fencing value is readable as an integer. */
  predicate Fenced(raw: seq<Arg>, k: nat) {
    k < |raw| && IsInteger(raw[k])
  }

  /** An item that is not given is an error; the early check lets an item without a compact form pass
      as none. */
  lemma CompletionVerdicts(raw: seq<Arg>, i: nat)
    ensures forall mixed :: CompleteCheck(raw, mixed)(i) == if CompletionGiven(raw, mixed, i) then Fine else Faulty
    ensures CompleteEarly(raw, true)(i)
         == if !Scalar(raw, 4 * i) || !Scalar(raw, 4 * i + 1) || !Scalar(raw, 4 * i + 2) then Ineligible
            else if Fenced(raw, 4 * i + 3) then Fine else Faulty
    ensures CompleteEarly(raw, false)(i)
         == if !Scalar(raw, 3 * i) || !Scalar(raw, 3 * i + 1) then Ineligible else if Fenced(raw, 3 * i + 2) then Fine else Faulty
  {
  }

  lemma {:induction false} CompletionsChecked(raw: seq<Arg>, mixed: bool, n: nat)
    ensures AllFine(CompleteCheck(raw, mixed), n) <==> CompletionsGiven(raw, mixed, n)
  {
    forall i: nat | i < n
      ensures CompleteCheck(raw, mixed)(i).Fine? <==> CompletionGiven(raw, mixed, i)
    {
      CompletionVerdicts(raw, i);
    }
    hide CompleteCheck, CompletionGiven;
  }

  lemma CompletionSame(raw: seq<Arg>, mixed: bool, i: nat)
    requires CompletionGiven(raw, mixed, i)
    ensures CompleteItemsOf(raw, mixed)(i) == Completion(raw, mixed, i)
  {
  }

  lemma {:induction false} CompletionsSame(raw: seq<Arg>, mixed: bool, n: nat)
    requires CompletionsGiven(raw, mixed, n)
    ensures Listed(CompleteItemsOf(raw, mixed), n) == Completions(raw, mixed, n)
  {
    forall i: nat | i < n
      ensures CompleteItemsOf(raw, mixed)(i) == Completion(raw, mixed, i)
    {
      assert CompletionGiven(raw, mixed, i);
      CompletionSame(raw, mixed, i);
    }
    hide CompleteItemsOf, CompletionGiven, Completion;
  }

  ghost predicate CompleteGiven(options: Options, partition: Option<Arg>, count: nat, raw: seq<Arg>, mixed: bool) {
    && !options.unsupported && SafeInteger(options.nowMs) && (options.returnMode == Regular || options.returnMode == OkOnSuccess)
    && AbsentOrWritable(partition) && CompletionsGiven(raw, mixed, count)
  }

  /** A completion is encodable exactly when its time is a safe integer, its options are supported and
      every part can be written; and then a decoder of the format gets every part as it was given. */
  lemma {:induction false} CompleteIsRecovered(options: Options, partition: Option<Arg>, count: nat, raw: seq<Arg>, mixed: bool)
    requires count <= 0xffff_ffff
    ensures CompleteOptionsOk(options) && OptEncodable(partition) && AllFine(CompleteCheck(raw, mixed), count)
            <==> CompleteGiven(options, partition, count, raw, mixed)
    ensures CompleteGiven(options, partition, count, raw, mixed) ==>
              var fields := CompleteHead(options, partition, count) + Groups(CompleteGroup(raw, mixed), count);
              AllOk(fields) && ReadComplete(BytesOf(fields))
              == Some(ManyRequest(options.returnMode == OkOnSuccess, Sent(partition), options.nowMs.n, None, options.independent,
                                  Completions(raw, mixed, count)))
  {
    hide CompleteHead, CompleteGroup, CompleteCheck, AllFine, AllOk, BytesOf, ReadComplete, Groups, Listed, Completions, CompletionsGiven;
    CompletionsChecked(raw, mixed, count);
    if CompleteGiven(options, partition, count, raw, mixed) {
      CompleteIsRead(options, partition, count, raw, mixed);
      CompletionsSame(raw, mixed, count);
    }
  }

  ghost predicate RetryGiven(options: Options, partition: Option<Arg>, count: nat, raw: seq<Arg>, mixed: bool) {
    CompleteGiven(options, partition, count, raw, mixed) && SafeInteger(options.runAtMs)
  }

  lemma {:induction false} RetryIsRecovered(options: Options, partition: Option<Arg>, count: nat, raw: seq<Arg>, mixed: bool)
    requires count <= 0xffff_ffff
    ensures RetryOptionsOk(options) && OptEncodable(partition) && AllFine(CompleteCheck(raw, mixed), count)
            <==> RetryGiven(options, partition, count, raw, mixed)
    ensures RetryGiven(options, partition, count, raw, mixed) ==>
              var fields := RetryHead(options, partition, count) + Groups(CompleteGroup(raw, mixed), count);
              AllOk(fields) && ReadRetry(BytesOf(fields))
              == Some(ManyRequest(options.returnMode == OkOnSuccess, Sent(partition), options.nowMs.n, Some(options.runAtMs.n),
                                  options.independent, Completions(raw, mixed, count)))
  {
    hide RetryHead, CompleteGroup, CompleteCheck, AllFine, AllOk, BytesOf, ReadRetry, Groups, Listed, Completions, CompletionsGiven;
    CompletionsChecked(raw, mixed, count);
    if RetryGiven(options, partition, count, raw, mixed) {
      RetryIsRead(options, partition, count, raw, mixed);
      CompletionsSame(raw, mixed, count);
    }
  }

  // ----- Cancellations: identifier, partition if mixed, fencing value -----

  predicate CancellationGiven(raw: seq<Arg>, mixed: bool, i: nat) {
    if mixed then
      && 3 * i + 2 < |raw| && Writable(raw[3 * i]) && Writable(raw[3 * i + 1])
      && IsInteger(raw[3 * i + 2]) && raw[3 * i + 2].integer.value >= 0
    else
      2 * i + 1 < |raw| && Writable(raw[2 * i]) && IsInteger(raw[2 * i + 1]) && raw[2 * i + 1].integer.value >= 0
  }

  function Cancellation(raw: seq<Arg>, mixed: bool, i: nat): Item
    requires CancellationGiven(raw, mixed, i)
  {
    if mixed then Item(raw[3 * i].bytes, Some(raw[3 * i + 1].bytes), None, raw[3 * i + 2].integer.value)
    else Item(raw[2 * i].bytes, None, None, raw[2 * i + 1].integer.value)
  }

  ghost predicate CancellationsGiven(raw: seq<Arg>, mixed: bool, n: nat) {
    forall i: nat | i < n :: CancellationGiven(raw, mixed, i)
  }

  ghost function Cancellations(raw: seq<Arg>, mixed: bool, n: nat): seq<Item>
    requires CancellationsGiven(raw, mixed, n)
  {
    seq(n, i requires 0 <= i < n && CancellationGiven(raw, mixed, i) => Cancellation(raw, mixed, i))
  }

  lemma CancellationChecked(raw: seq<Arg>, mixed: bool, i: nat)
    ensures CancelCheck(raw, mixed)(i).Fine? <==> CancellationGiven(raw, mixed, i)
    ensures CancellationGiven(raw, mixed, i) ==> CancelItemsOf(raw, mixed)(i) == Cancellation(raw, mixed, i)
  {
  }

  /** A negative fencing value has no compact form; one that is missing is an error, and so is an
      argument that is too long. */
  lemma CancellationVerdicts(raw: seq<Arg>, i: nat)
    ensures CancelEarly(raw, true)(i) == if !Scalar(raw, 3 * i) || !Scalar(raw, 3 * i + 1) then Ineligible else FencingOf(raw, 3 * i + 2)
    ensures CancelEarly(raw, false)(i) == if !Scalar(raw, 2 * i) then Ineligible else FencingOf(raw, 2 * i + 1)
    ensures CancelCheck(raw, true)(i)
         == if !Scalar(raw, 3 * i) || !Scalar(raw, 3 * i + 1) then Ineligible
            else if !Writable(raw[3 * i]) || !Writable(raw[3 * i + 1]) then Faulty else FencingOf(raw, 3 * i + 2)
    ensures CancelCheck(raw, false)(i)
         == if !Scalar(raw, 2 * i) then Ineligible else if !Writable(raw[2 * i]) then Faulty else FencingOf(raw, 2 * i + 1)
  {
  }

  function FencingOf(raw: seq<Arg>, k: nat): Verdict {
    if !Fenced(raw, k) then Faulty else if raw[k].integer.value < 0 then Ineligible else Fine
  }

  lemma {:induction false} CancellationsChecked(raw: seq<Arg>, mixed: bool, n: nat)
    ensures AllFine(CancelCheck(raw, mixed), n) <==> CancellationsGiven(raw, mixed, n)
    ensures CancellationsGiven(raw, mixed, n) ==> Listed(CancelItemsOf(raw, mixed), n) == Cancellations(raw, mixed, n)
  {
    forall i: nat | i < n
      ensures CancelCheck(raw, mixed)(i).Fine? <==> CancellationGiven(raw, mixed, i)
      ensures CancellationGiven(raw, mixed, i) ==> CancelItemsOf(raw, mixed)(i) == Cancellation(raw, mixed, i)
    {
      CancellationChecked(raw, mixed, i);
    }
    hide CancelCheck, CancelItemsOf, CancellationGiven, Cancellation;
  }

  ghost predicate CancelGiven(options: Options, partition: Option<Arg>, count: nat, raw: seq<Arg>, mixed: bool) {
    && !options.unsupported && SafeTime(options.nowMs) && (options.returnMode == Regular || options.returnMode == OkOnSuccess)
    && AbsentOrWritable(partition) && CancellationsGiven(raw, mixed, count)
  }

  lemma {:induction false} CancelIsRecovered(options: Options, partition: Option<Arg>, count: nat, raw: seq<Arg>, mixed: bool)
    requires count <= 0xffff_ffff
    ensures CancelOptionsOk(options) && OptEncodable(partition) && AllFine(CancelCheck(raw, mixed), count)
            <==> CancelGiven(options, partition, count, raw, mixed)
    ensures CancelGiven(options, partition, count, raw, mixed) ==>
              var fields := CancelHead(options, partition, count) + Groups(CancelGroup(raw, mixed), count);
              AllOk(fields) && ReadCancel(BytesOf(fields))
              == Some(ManyRequest(options.returnMode == OkOnSuccess, Sent(partition), options.nowMs.n, None, options.independent,
                                  Cancellations(raw, mixed, count)))
  {
    hide CancelHead, CancelGroup, CancelCheck, AllFine, AllOk, BytesOf, ReadCancel, Groups, Listed, Cancellations, CancellationsGiven;
    CancellationsChecked(raw, mixed, count);
    if CancelGiven(options, partition, count, raw, mixed) { CancelIsRead(options, partition, count, raw, mixed); }
  }

  // ----- Transitions: identifier, partition if mixed, fencing value, lease -----

  predicate MoveGiven(raw: seq<Arg>, mixed: bool, i: nat) {
    if mixed then
      && 4 * i + 3 < |raw| && Writable(raw[4 * i]) && Writable(raw[4 * i + 1]) && Writable(raw[4 * i + 3])
      && IsInteger(raw[4 * i + 2]) && raw[4 * i + 2].integer.value >= 0
    else
      && 3 * i + 2 < |raw| && Writable(raw[3 * i]) && Writable(raw[3 * i + 2])
      && IsInteger(raw[3 * i + 1]) && raw[3 * i + 1].integer.value >= 0
  }

  /** A lease of "-" is none. */
  function Move(raw: seq<Arg>, mixed: bool, i: nat): Item
    requires MoveGiven(raw, mixed, i)
  {
    if mixed then
      Item(raw[4 * i].bytes, Some(raw[4 * i + 1].bytes), if raw[4 * i + 3].bytes == [0x2d] then None else Some(raw[4 * i + 3].bytes),
           raw[4 * i + 2].integer.value)
    else
      Item(raw[3 * i].bytes, None, if raw[3 * i + 2].bytes == [0x2d] then None else Some(raw[3 * i + 2].bytes),
           raw[3 * i + 1].integer.value)
  }

  ghost predicate MovesGiven(raw: seq<Arg>, mixed: bool, n: nat) {
    forall i: nat | i < n :: MoveGiven(raw, mixed, i)
  }

  ghost function Moves(raw: seq<Arg>, mixed: bool, n: nat): seq<Item>
    requires MovesGiven(raw, mixed, n)
  {
    seq(n, i requires 0 <= i < n && MoveGiven(raw, mixed, i) => Move(raw, mixed, i))
  }

  lemma MoveChecked(raw: seq<Arg>, mixed: bool, i: nat)
    ensures TransitionCheck(raw, mixed)(i).Fine? <==> MoveGiven(raw, mixed, i)
    ensures MoveGiven(raw, mixed, i) ==> TransitionItemsOf(raw, mixed)(i) == Move(raw, mixed, i)
  {
  }

  lemma MoveVerdicts(raw: seq<Arg>, i: nat)
    ensures TransitionEarly(raw, true)(i)
         == if !Scalar(raw, 4 * i) || !Scalar(raw, 4 * i + 1) || !Scalar(raw, 4 * i + 3) then Ineligible else FencingOf(raw, 4 * i + 2)
    ensures TransitionEarly(raw, false)(i)
         == if !Scalar(raw, 3 * i) || !Scalar(raw, 3 * i + 2) then Ineligible else FencingOf(raw, 3 * i + 1)
    ensures TransitionCheck(raw, true)(i).Ineligible?
            <==> || !Scalar(raw, 4 * i) || !Scalar(raw, 4 * i + 1) || !Scalar(raw, 4 * i + 3)
                 || (Writable(raw[4 * i]) && Writable(raw[4 * i + 1]) && FencingOf(raw, 4 * i + 2).Ineligible?)
    ensures TransitionCheck(raw, false)(i).Ineligible?
            <==> || !Scalar(raw, 3 * i) || !Scalar(raw, 3 * i + 2)
                 || (Writable(raw[3 * i]) && FencingOf(raw, 3 * i + 1).Ineligible?)
  {
  }

  lemma {:induction false} MovesChecked(raw: seq<Arg>, mixed: bool, n: nat)
    ensures AllFine(TransitionCheck(raw, mixed), n) <==> MovesGiven(raw, mixed, n)
    ensures MovesGiven(raw, mixed, n) ==> Listed(TransitionItemsOf(raw, mixed), n) == Moves(raw, mixed, n)
  {
    forall i: nat | i < n
      ensures TransitionCheck(raw, mixed)(i).Fine? <==> MoveGiven(raw, mixed, i)
      ensures MoveGiven(raw, mixed, i) ==> TransitionItemsOf(raw, mixed)(i) == Move(raw, mixed, i)
    {
      MoveChecked(raw, mixed, i);
    }
    hide TransitionCheck, TransitionItemsOf, MoveGiven, Move;
  }

  ghost predicate TransitionGiven(options: Options, from: Arg, target: Arg, partition: Option<Arg>, raw: seq<Arg>, mixed: bool, count: nat) {
    && !options.unsupported && SafeTime(options.nowMs) && (options.runAtMs.Missing? || SafeTime(options.runAtMs))
    && (options.returnMode == Regular || options.returnMode == OkOnSuccess)
    && Writable(from) && Writable(target) && AbsentOrWritable(partition) && MovesGiven(raw, mixed, count)
  }

  lemma {:induction false} TransitionIsRecovered(options: Options, from: Arg, target: Arg, partition: Option<Arg>, raw: seq<Arg>, mixed: bool, count: nat)
    requires count <= 0xffff_ffff
    ensures TransitionOptionsOk(options) && Encodable(from) && Encodable(target) && OptEncodable(partition)
            && AllFine(TransitionCheck(raw, mixed), count)
            <==> TransitionGiven(options, from, target, partition, raw, mixed, count)
    ensures TransitionGiven(options, from, target, partition, raw, mixed, count) ==>
              var fields := TransitionHead(options, from, target, partition, count) + Groups(TransitionGroup(raw, mixed), count);
              var runAtMs := if options.runAtMs.Missing? then options.nowMs.n else options.runAtMs.n;
              AllOk(fields) && ReadTransition(BytesOf(fields))
              == Some(Transition(from.bytes, target.bytes,
                                 ManyRequest(options.returnMode == OkOnSuccess, Sent(partition), options.nowMs.n, Some(runAtMs),
                                             options.independent, Moves(raw, mixed, count))))
  {
    hide TransitionHead, TransitionGroup, TransitionCheck, AllFine, AllOk, BytesOf, ReadTransition, Groups, Listed, Moves, MovesGiven;
    MovesChecked(raw, mixed, count);
    if TransitionGiven(options, from, target, partition, raw, mixed, count) {
      TransitionIsRead(options, from, target, partition, raw, mixed, count);
    }
  }

  // ----- Creations: identifier, partition if mixed, payload -----

  predicate CreationGiven(raw: seq<Arg>, mixed: bool, i: nat) {
    if mixed then 3 * i + 2 < |raw| && Writable(raw[3 * i]) && Writable(raw[3 * i + 1]) && Writable(raw[3 * i + 2])
    else 2 * i + 1 < |raw| && Writable(raw[2 * i]) && Writable(raw[2 * i + 1])
  }

  function Created(raw: seq<Arg>, mixed: bool, i: nat): NewFlow
    requires CreationGiven(raw, mixed, i)
  {
    if mixed then NewFlow(raw[3 * i].bytes, Some(raw[3 * i + 1].bytes), raw[3 * i + 2].bytes)
    else NewFlow(raw[2 * i].bytes, None, raw[2 * i + 1].bytes)
  }

  ghost predicate CreationsGiven(raw: seq<Arg>, mixed: bool, n: nat) {
    forall i: nat | i < n :: CreationGiven(raw, mixed, i)
  }

  ghost function Creations(raw: seq<Arg>, mixed: bool, n: nat): seq<NewFlow>
    requires CreationsGiven(raw, mixed, n)
  {
    seq(n, i requires 0 <= i < n && CreationGiven(raw, mixed, i) => Created(raw, mixed, i))
  }

  lemma CreationChecked(raw: seq<Arg>, mixed: bool, i: nat)
    ensures CreateCheck(raw, mixed)(i).Fine? <==> CreationGiven(raw, mixed, i)
    ensures CreationGiven(raw, mixed, i) ==> NewFlowsOf(raw, mixed)(i) == Created(raw, mixed, i)
  {
  }

  /** An argument without a compact form is no error, one that is too long is. */
  lemma CreationVerdicts(raw: seq<Arg>, i: nat)
    ensures CreateCheck(raw, true)(i).Ineligible? <==> !Scalar(raw, 3 * i) || !Scalar(raw, 3 * i + 1) || !Scalar(raw, 3 * i + 2)
    ensures CreateCheck(raw, false)(i).Ineligible? <==> !Scalar(raw, 2 * i) || !Scalar(raw, 2 * i + 1)
  {
  }

  lemma {:induction false} CreationsChecked(raw: seq<Arg>, mixed: bool, n: nat)
    ensures AllFine(CreateCheck(raw, mixed), n) <==> CreationsGiven(raw, mixed, n)
    ensures CreationsGiven(raw, mixed, n) ==> Listed(NewFlowsOf(raw, mixed), n) == Creations(raw, mixed, n)
  {
    forall i: nat | i < n
      ensures CreateCheck(raw, mixed)(i).Fine? <==> CreationGiven(raw, mixed, i)
      ensures CreationGiven(raw, mixed, i) ==> NewFlowsOf(raw, mixed)(i) == Created(raw, mixed, i)
    {
      CreationChecked(raw, mixed, i);
    }
    hide CreateCheck, NewFlowsOf, CreationGiven, Created;
  }

  ghost predicate CreateGiven(options: Options, kind: Arg, state: Arg, partition: Option<Arg>, count: nat, raw: seq<Arg>, mixed: bool) {
    && !options.unsupported && SafeInteger(options.nowMs) && (options.runAtMs.Missing? || SafeInteger(options.runAtMs))
    && Writable(kind) && Writable(state) && AbsentOrWritable(partition) && CreationsGiven(raw, mixed, count)
  }

  /** Whichever of the three forms a creation has. */
  lemma {:induction false} CreateIsRecovered(options: Options, kind: Arg, state: Arg, partitionKey: Arg, count: nat, raw: seq<Arg>, mixed: bool, auto: bool)
    requires count <= 0xffff_ffff
    ensures var partition := if auto || mixed then None else Some(partitionKey);
            CreateOptionsOk(options) && Encodable(kind) && Encodable(state) && OptEncodable(partition) && AllFine(CreateCheck(raw, mixed), count)
            <==> CreateGiven(options, kind, state, partition, count, raw, mixed)
    ensures var partition := if auto || mixed then None else Some(partitionKey);
            CreateGiven(options, kind, state, partition, count, raw, mixed) ==>
              var fields := CreateHead(options, CreateTag(mixed, auto), kind, state, partition, count) + Groups(CreateGroup(raw, mixed), count);
              var runAtMs := if options.runAtMs.Missing? then options.nowMs.n else options.runAtMs.n;
              AllOk(fields) && ReadCreate(BytesOf(fields))
              == Some(Creation(kind.bytes, state.bytes, Sent(partition), options.nowMs.n, runAtMs, options.independent,
                               Creations(raw, mixed, count)))
  {
    hide CreateHead, CreateGroup, CreateCheck, CreateTag, AllFine, AllOk, BytesOf, ReadCreate, Groups, Listed, Creations, CreationsGiven;
    var partition := if auto || mixed then None else Some(partitionKey);
    CreationsChecked(raw, mixed, count);
    if CreateGiven(options, kind, state, partition, count, raw, mixed) {
      CreateIsRead(options, kind, state, partitionKey, count, raw, mixed, auto);
    }
  }

  // ----- Lists of arguments -----

  predicate AllWritable(args: seq<Arg>) {
    forall i | 0 <= i < |args| :: Writable(args[i])
  }

  function AllSent(args: seq<Arg>): (r: seq<seq<byte>>)
    requires AllWritable(args)
    ensures |r| == |args| && forall i | 0 <= i < |args| :: r[i] == args[i].bytes
  {
    seq(|args|, i requires 0 <= i < |args| => args[i].bytes)
  }

  lemma KeyVerdicts(args: seq<Arg>, i: nat)
    ensures BinEarly(args)(i) == if Scalar(args, i) then Fine else Ineligible
    ensures BinCheck(args)(i) == if !Scalar(args, i) then Ineligible else if Writable(args[i]) then Fine else Faulty
  {
  }

  lemma {:induction false} KeysChecked(args: seq<Arg>)
    ensures AllFine(BinCheck(args), |args|) <==> AllWritable(args)
    ensures AllFine(BinStrict(args), |args|) <==> AllWritable(args)
    ensures AllWritable(args) ==> Listed(KeysOf(args), |args|) == AllSent(args)
  {
    forall i: nat | i < |args|
      ensures BinCheck(args)(i).Fine? <==> Writable(args[i])
      ensures BinStrict(args)(i).Fine? <==> Writable(args[i])
      ensures Writable(args[i]) ==> KeysOf(args)(i) == args[i].bytes
    {
    }
  }

  // ----- Claims -----

  ghost predicate ClaimGiven(c: Claim) {
    && !c.unsupported && c.worker.Some? && SafeInteger(c.leaseMs) && SafeInteger(c.limit)
    && (c.blockMs.Missing? || SafeInteger(c.blockMs)) && (c.reclaimRatio.Missing? || SafeInteger(c.reclaimRatio))
    && (c.priority.Missing? || SafeInteger(c.priority)) && c.returnMode.Some? && 1 <= c.returnMode.value <= 4
    && Writable(c.kind) && AbsentOrWritable(c.state) && Writable(c.worker.value)
    && match c.partitions
       case Any => true
       case One(key) => Writable(key)
       case Several(keys) => AllWritable(keys) && |keys| <= 0xffff_ffff
  }

  function SentNumber(v: Number): Option<int> {
    if v.Safe? then Some(v.n) else None
  }

  function SentPartitions(partitions: Partitions): Named
    requires partitions.One? ==> Writable(partitions.key)
    requires partitions.Several? ==> AllWritable(partitions.keys)
  {
    match partitions
    case Any => AnyPartition
    case One(key) => OnePartition(key.bytes)
    case Several(keys) => SeveralPartitions(AllSent(keys))
  }

  lemma {:induction false} PartitionsSent(partitions: Partitions)
    requires partitions.One? ==> Writable(partitions.key)
    requires partitions.Several? ==> AllWritable(partitions.keys)
    ensures NamedBy(partitions) == SentPartitions(partitions)
  {
    if partitions.Several? { KeysChecked(partitions.keys); }
    hide Listed, AllSent, AllWritable;
  }

  /** An expired lease is reclaimed unless that is switched off; the ratio is 25 unless it is given. */
  lemma {:induction false} ClaimIsRecovered(c: Claim)
    ensures ClaimOptionsOk(c) && ClaimArgsOk(c) && AllFine(BinStrict(ClaimKeys(c)), |ClaimKeys(c)|) <==> ClaimGiven(c)
    ensures ClaimGiven(c) ==>
              var keys := ClaimKeys(c);
              var fields := ClaimMain(c) + ClaimTail(c) + Groups(BinGroup(keys), |keys|);
              AllOk(fields) && ReadClaimRequest(BytesOf(fields))
              == Some(ClaimRequest(c.kind.bytes, Sent(c.state), c.worker.value.bytes, c.leaseMs.n, c.limit.n, SentNumber(c.blockMs),
                                   c.reclaimExpired != Some(false), if c.reclaimRatio.Missing? then 25 else c.reclaimRatio.n,
                                   SentNumber(c.priority), c.returnMode.value, SentPartitions(c.partitions)))
  {
    hide ClaimMain, ClaimTail, BinGroup, BinStrict, AllFine, AllOk, BytesOf, ReadClaimRequest, Groups, Listed, AllSent, AllWritable, NamedBy;
    KeysChecked(ClaimKeys(c));
    NoKeys();
    if ClaimGiven(c) {
      ClaimIsRead(c);
      PartitionsSent(c.partitions);
    }
  }

  lemma NoKeys()
    ensures AllWritable([])
  {
  }

  // ----- Values, keys and pairs -----

  lemma {:induction false} ValueMGetIsRecovered(refs: seq<Arg>, maxBytes: Number)
    requires |refs| <= 0xffff_ffff
    ensures MaxBytesOk(maxBytes) && AllFine(BinCheck(refs), |refs|) <==> (maxBytes.Missing? || SafeTime(maxBytes)) && AllWritable(refs)
    ensures (maxBytes.Missing? || SafeTime(maxBytes)) && AllWritable(refs) ==>
              var fields := ValueMGetFields(refs, maxBytes);
              AllOk(fields) && ReadValueMGet(BytesOf(fields)) == Some((SentNumber(maxBytes), AllSent(refs)))
  {
    hide ValueMGetFields, BinCheck, AllFine, AllOk, BytesOf, ReadValueMGet, Listed, AllSent, AllWritable;
    KeysChecked(refs);
    if (maxBytes.Missing? || SafeTime(maxBytes)) && AllWritable(refs) { ValueMGetIsRead(refs, maxBytes); }
  }

  lemma {:induction false} KeyPipelineIsRecovered(mode: nat, args: seq<Arg>)
    requires mode < 256 && |args| <= 0xffff_ffff
    ensures AllFine(BinCheck(args), |args|) <==> AllWritable(args)
    ensures AllWritable(args) ==>
              && AllOk(KeyFields(mode, args))
              && ReadPipeline(BytesOf(KeyFields(mode, args)), [KBin], KeyOf) == Some((mode, AllSent(args)))
  {
    hide KeyFields, BinCheck, AllFine, AllOk, BytesOf, ReadPipeline, Listed, AllSent, AllWritable;
    KeysChecked(args);
    if AllWritable(args) { KeyPipelineIsRead(mode, args); }
  }

  function PairsSent(args: seq<Arg>): (r: seq<(seq<byte>, seq<byte>)>)
    requires AllWritable(args)
    ensures |r| == |args| / 2 && forall i: nat | i < |args| / 2 :: r[i] == (args[2 * i].bytes, args[2 * i + 1].bytes)
  {
    seq(|args| / 2, i requires 0 <= i < |args| / 2 => (args[2 * i].bytes, args[2 * i + 1].bytes))
  }

  lemma {:induction false} PairsChecked(args: seq<Arg>)
    requires |args| % 2 == 0
    ensures AllFine(PairCheck(args), |args| / 2) <==> AllWritable(args)
    ensures AllWritable(args) ==> Listed(PairsOf(args), |args| / 2) == PairsSent(args)
  {
    forall i: nat | i < |args| / 2
      ensures PairCheck(args)(i).Fine? <==> Writable(args[2 * i]) && Writable(args[2 * i + 1])
      ensures AllWritable(args) ==> PairsOf(args)(i) == (args[2 * i].bytes, args[2 * i + 1].bytes)
    {
      assert BinCheck(args)(2 * i).Fine? <==> Writable(args[2 * i]);
      assert BinCheck(args)(2 * i + 1).Fine? <==> Writable(args[2 * i + 1]);
    }
    if AllFine(PairCheck(args), |args| / 2) {
      forall i | 0 <= i < |args|
        ensures Writable(args[i])
      {
        var k := i / 2;
        assert k < |args| / 2;
        assert PairCheck(args)(k).Fine?;
        assert i == 2 * k || i == 2 * k + 1;
      }
    }
    hide PairCheck, PairsOf, Writable;
  }

  /** Every key arrives with the value that follows it. */
  lemma {:induction false} MsetIsRecovered(args: seq<Arg>)
    requires |args| <= 0xffff_ffff && |args| % 2 == 0
    ensures AllFine(PairCheck(args), |args| / 2) <==> AllWritable(args)
    ensures AllWritable(args) ==>
              var fields := PipelineHead(1, |args| / 2) + Groups(PairGroup(args), |args| / 2);
              AllOk(fields) && ReadPipeline(BytesOf(fields), PAIR, PairOf) == Some((1, PairsSent(args)))
  {
    hide PipelineHead, PairGroup, Groups, PairCheck, AllFine, AllOk, BytesOf, ReadPipeline, Listed, PairsSent, AllWritable;
    PairsChecked(args);
    if AllWritable(args) { MsetIsRead(args); }
  }
}
