/** The compact encoders that create, complete, retry and cancel many flows. */
module CompactFlowMany {
  import opened Wrappers
  import opened CompactFields
  import opened CompactPlan
  import opened CompactFlow

  /** The integer of a fencing value is exact and may have any sign. */
  function IntegerVerdict(a: Arg): Verdict {
    if a.Other? || a.integer.None? then Faulty else Fine
  }

  // ----- FLOW.CREATE_MANY -----

  /** The tag tells the three forms apart: with a partition for each item, without any, or with
      one for all. */
  function CreateTag(mixed: bool, auto: bool): nat {
    if mixed then 0x9e else if auto then 0x90 else 0x96
  }

  predicate CreateOptionsOk(options: Options) {
    !options.unsupported && IsSafe(options.nowMs) && IsSafe(RunAt(options))
  }

  function CreateIndex(mixed: bool, i: nat): nat {
    if mixed then 3 * i else 2 * i
  }

  function CreateFields(raw: seq<Arg>, mixed: bool, i: nat): seq<Field> {
    var at := CreateIndex(mixed, i);
    if mixed then [Bin(BytesAt(raw, at)), Bin(BytesAt(raw, at + 1)), Bin(BytesAt(raw, at + 2))]
    else [Bin(BytesAt(raw, at)), Bin(BytesAt(raw, at + 1))]
  }

  function CreateGroup(raw: seq<Arg>, mixed: bool): nat -> seq<Field> {
    (i: nat) => CreateFields(raw, mixed, i)
  }

  function CreatePlan(raw: seq<Arg>, mixed: bool): nat -> nat {
    (i: nat) =>
      var at := CreateIndex(mixed, i);
      4 + |BytesAt(raw, at)| + (if mixed then 4 + |BytesAt(raw, at + 1)| else 0) + 4 + |BytesAt(raw, at + if mixed then 2 else 1)|
  }

  /** There is no lower bound to check early. */
  function CreateEarly(): nat -> Verdict {
    (i: nat) => Fine
  }

  function CreateCheck(raw: seq<Arg>, mixed: bool): nat -> Verdict {
    (i: nat) =>
      var at := CreateIndex(mixed, i);
      if At(raw, at).Other? || At(raw, at + 1).Other? || (mixed && At(raw, at + 2).Other?) then Ineligible
      else if !IsShort(At(raw, at)) || !IsShort(At(raw, at + 1)) || (mixed && !IsShort(At(raw, at + 2))) then Faulty
      else Fine
  }

  function CreateKinds(mixed: bool): seq<Kind> {
    if mixed then [KBin, KBin, KBin] else [KBin, KBin]
  }

  lemma {:induction false} CreateItem(raw: seq<Arg>, mixed: bool, i: nat)
    ensures Size(CreateFields(raw, mixed, i)) == CreatePlan(raw, mixed)(i) >= 8
    ensures CreateCheck(raw, mixed)(i).Fine? ==> AllOk(CreateFields(raw, mixed, i))
    ensures KindsOf(CreateFields(raw, mixed, i)) == CreateKinds(mixed)
  {
    SizeOfShort(CreateFields(raw, mixed, i));
  }

  function CreateHead(options: Options, tag: nat, kind: Arg, state: Arg, partition: Option<Arg>, count: nat): seq<Field> {
    [U8(tag), Bin(BytesAt([kind], 0)), Bin(BytesAt([state], 0))]
    + (if partition.Some? then [Opt(Some(BytesAt([partition.value], 0)))] else [])
    + [I64(Clamped(options.nowMs)), I64(Clamped(RunAt(options))), U8(IndependentMode(options.independent)), U8(1), U32(count)]
  }

  function CreateHeadKinds(partitioned: bool): seq<Kind> {
    [KU8, KBin, KBin] + (if partitioned then [KOpt] else []) + [KI64, KI64, KU8, KU8, KU32]
  }

  function CreateHeadPlan(kind: Arg, state: Arg, partition: Option<Arg>): nat {
    1 + 4 + |BytesAt([kind], 0)| + 4 + |BytesAt([state], 0)| + 8 + 8 + 1 + 1 + 4
    + if partition.Some? then 4 + |BytesAt([partition.value], 0)| else 0
  }

  lemma {:induction false} CreateHeadExact(options: Options, tag: nat, kind: Arg, state: Arg, partition: Option<Arg>, count: nat)
    requires CreateOptionsOk(options) && tag < 256 && count <= MAX_U32
    ensures var head := CreateHead(options, tag, kind, state, partition, count);
            && Size(head) == CreateHeadPlan(kind, state, partition)
            && (Encodable(kind) && Encodable(state) && OptEncodable(partition) ==> AllOk(head))
            && KindsOf(head) == CreateHeadKinds(partition.Some?)
  {
    SizeOfShort(CreateHead(options, tag, kind, state, partition, count));
  }

  lemma {:induction false} CreatePlanExact(options: Options, tag: nat, kind: Arg, state: Arg, partition: Option<Arg>, count: nat,
                        raw: seq<Arg>, mixed: bool)
    requires CreateOptionsOk(options) && tag < 256 && count <= MAX_U32
    ensures var head := CreateHead(options, tag, kind, state, partition, count);
            && PlanIsExact(Encodable(kind) && Encodable(state) && OptEncodable(partition), head,
                           CreateHeadPlan(kind, state, partition), CreateGroup(raw, mixed), CreatePlan(raw, mixed),
                           CreateCheck(raw, mixed), count)
  {
    CreateHeadExact(options, tag, kind, state, partition, count);
    hide CreateHead, CreateHeadPlan, Encodable, OptEncodable, AllOk, Size, CreateOptionsOk;
    forall i: nat | i < count
      ensures ItemExact(CreateGroup(raw, mixed), CreatePlan(raw, mixed), CreateCheck(raw, mixed), 0, i)
    {
      CreateItem(raw, mixed, i);
    }
    ExactItemByItem(Encodable(kind) && Encodable(state) && OptEncodable(partition),
                    CreateHead(options, tag, kind, state, partition, count), CreateHeadPlan(kind, state, partition),
                    CreateGroup(raw, mixed), CreatePlan(raw, mixed), CreateCheck(raw, mixed), count,
                    0, 0);
  }

  method CreateMany(partitionKey: Arg, kind: Arg, state: Arg, raw: seq<Arg>, mixed: bool, auto: bool, options: Options,
                    maxBodyBytes: nat)
    returns (r: Outcome)
    requires |raw| % (if mixed then 3 else 2) == 0
    ensures var count := if mixed then |raw| / 3 else |raw| / 2;
            var tag := CreateTag(mixed, auto);
            var partition := if auto || mixed then None else Some(partitionKey);
            var fields := CreateHead(options, tag, kind, state, partition, count) + Groups(CreateGroup(raw, mixed), count);
            && (r.Encoded? <==> CreateOptionsOk(options) && count <= MAX_U32 && Encodable(kind) && Encodable(state)
                                && OptEncodable(partition) && AllFine(CreateCheck(raw, mixed), count)
                                && Size(fields) <= maxBodyBytes)
            && (r.Encoded? ==> AllOk(fields) && r.payload == BytesOf(fields))
            && (r.TooLarge? ==> Size(fields) > maxBodyBytes)
            && (r.NotCompact? <==> !(CreateOptionsOk(options) && kind.Scalar? && state.Scalar? && count <= MAX_U32) || Refused(Encodable(kind) && Encodable(state) && OptEncodable(partition),
                                              CreateEarly(), CreateCheck(raw, mixed), false, count, Ineligible))
            && (r.BadArgument? <==> CreateOptionsOk(options) && kind.Scalar? && state.Scalar? && count <= MAX_U32 && Refused(Encodable(kind) && Encodable(state) && OptEncodable(partition),
                                              CreateEarly(), CreateCheck(raw, mixed), false, count, Faulty))
  {
    var count := if mixed then |raw| / 3 else |raw| / 2;
    var tag := CreateTag(mixed, auto);
    var partition := if auto || mixed then None else Some(partitionKey);
    if !CreateOptionsOk(options) || kind.Other? || state.Other? || count > MAX_U32 { return NotCompact; }
    var head := CreateHead(options, tag, kind, state, partition, count);
    var headFine := Encodable(kind) && Encodable(state) && OptEncodable(partition);
    CreatePlanExact(options, tag, kind, state, partition, count, raw, mixed);
    hide CreateHead, CreateHeadPlan, Encodable, OptEncodable, AllOk, FieldOk, Size, Refused, CreateOptionsOk;
    r := EncodeRequest(headFine, head, CreateHeadPlan(kind, state, partition), CreateGroup(raw, mixed),
                       CreatePlan(raw, mixed), CreateEarly(),
                       CreateCheck(raw, mixed), 0, count, maxBodyBytes);
  }

  lemma {:induction false} CreateReadBack(options: Options, tag: nat, kind: Arg, state: Arg, partition: Option<Arg>, count: nat,
                       raw: seq<Arg>, mixed: bool)
    requires CreateOptionsOk(options) && tag < 256 && count <= MAX_U32 && Encodable(kind) && Encodable(state) &&
             OptEncodable(partition) && AllFine(CreateCheck(raw, mixed), count)
    ensures var head := CreateHead(options, tag, kind, state, partition, count);
            var fields := head + Groups(CreateGroup(raw, mixed), count);
            AllOk(fields) && ReadRequest(CreateHeadKinds(partition.Some?), CreateKinds(mixed), BytesOf(fields))
                             == Some((head, GroupList(CreateGroup(raw, mixed), 0, count)))
  {
    CreateHeadExact(options, tag, kind, state, partition, count);
    forall i: nat | i < count
      ensures AllOk(CreateGroup(raw, mixed)(i)) && KindsOf(CreateGroup(raw, mixed)(i)) == CreateKinds(mixed)
    {
      CreateItem(raw, mixed, i);
    }
    hide AllOk, Size, CreateOptionsOk;
    RequestRoundTrip(CreateHead(options, tag, kind, state, partition, count), CreateKinds(mixed), CreateGroup(raw, mixed), count);
  }

  // ----- FLOW.COMPLETE_MANY -----

  predicate CompleteOptionsOk(options: Options) {
    !options.unsupported && IsSafe(options.nowMs) && !options.returnMode.OtherMode?
  }

  function CompleteIndex(mixed: bool, i: nat): nat {
    if mixed then 4 * i else 3 * i
  }

  function CompleteFields(raw: seq<Arg>, mixed: bool, i: nat): seq<Field> {
    var at := CompleteIndex(mixed, i);
    [Bin(BytesAt(raw, at)), Opt(ItemPartition(raw, mixed, at + 1)), Bin(BytesAt(raw, at + if mixed then 2 else 1)),
     I64(IntAt(raw, at + if mixed then 3 else 2))]
  }

  function CompleteGroup(raw: seq<Arg>, mixed: bool): nat -> seq<Field> {
    (i: nat) => CompleteFields(raw, mixed, i)
  }

  function CompletePlan(raw: seq<Arg>, mixed: bool): nat -> nat {
    (i: nat) =>
      var at := CompleteIndex(mixed, i);
      4 + |BytesAt(raw, at)| + 4 + OptLength(ItemPartition(raw, mixed, at + 1)) + 4 + |BytesAt(raw, at + if mixed then 2 else 1)| + 8
  }

  function CompleteEarly(raw: seq<Arg>, mixed: bool): nat -> Verdict {
    (i: nat) =>
      var at := CompleteIndex(mixed, i);
      if At(raw, at).Other? || (mixed && At(raw, at + 1).Other?) || At(raw, at + if mixed then 2 else 1).Other? then Ineligible
      else IntegerVerdict(At(raw, at + if mixed then 3 else 2))
  }

  function CompleteCheck(raw: seq<Arg>, mixed: bool): nat -> Verdict {
    (i: nat) =>
      var at := CompleteIndex(mixed, i);
      if IntegerVerdict(At(raw, at + if mixed then 3 else 2)).Faulty? then Faulty
      else if !Encodable(At(raw, at)) || (mixed && !Encodable(At(raw, at + 1))) || !Encodable(At(raw, at + if mixed then 2 else 1)) then Faulty
      else Fine
  }

  const COMPLETE_ITEM := [KBin, KOpt, KBin, KI64]

  lemma {:induction false} CompleteItem(raw: seq<Arg>, mixed: bool, i: nat)
    ensures Size(CompleteFields(raw, mixed, i)) == CompletePlan(raw, mixed)(i) >= 20
    ensures CompleteCheck(raw, mixed)(i).Fine? ==> AllOk(CompleteFields(raw, mixed, i))
    ensures KindsOf(CompleteFields(raw, mixed, i)) == COMPLETE_ITEM
  {
    SizeOfShort(CompleteFields(raw, mixed, i));
  }

  function CompleteHead(options: Options, partition: Option<Arg>, count: nat): seq<Field> {
    [U8(if options.returnMode.OkOnSuccess? then 0x93 else 0x92), Opt(if partition.Some? then Some(BytesAt([partition.value], 0)) else None),
     I64(Clamped(options.nowMs)), U8(IndependentMode(options.independent)), U32(count)]
  }

  const COMPLETE_HEAD := [KU8, KOpt, KI64, KU8, KU32]

  function CompleteHeadPlan(partition: Option<Arg>): nat {
    1 + 4 + (if partition.Some? then |BytesAt([partition.value], 0)| else 0) + 8 + 1 + 4
  }

  lemma {:induction false} CompleteHeadExact(options: Options, partition: Option<Arg>, count: nat)
    requires CompleteOptionsOk(options) && count <= MAX_U32
    ensures var head := CompleteHead(options, partition, count);
            && Size(head) == CompleteHeadPlan(partition) >= 18
            && (OptEncodable(partition) ==> AllOk(head))
            && KindsOf(head) == COMPLETE_HEAD
  {
    SizeOfShort(CompleteHead(options, partition, count));
  }

  lemma {:induction false} CompletePlanExact(options: Options, partition: Option<Arg>, count: nat, raw: seq<Arg>, mixed: bool)
    requires CompleteOptionsOk(options) && count <= MAX_U32
    ensures var head := CompleteHead(options, partition, count);
            && PlanIsExact(OptEncodable(partition), head, CompleteHeadPlan(partition), CompleteGroup(raw, mixed),
                           CompletePlan(raw, mixed), CompleteCheck(raw, mixed), count)
            && 18 + count * 20 <= Size(head) + Size(Groups(CompleteGroup(raw, mixed), count))
  {
    CompleteHeadExact(options, partition, count);
    hide CompleteHead, CompleteHeadPlan, Encodable, OptEncodable, AllOk, Size, CompleteOptionsOk;
    forall i: nat | i < count
      ensures ItemExact(CompleteGroup(raw, mixed), CompletePlan(raw, mixed), CompleteCheck(raw, mixed), 20, i)
    {
      CompleteItem(raw, mixed, i);
    }
    ExactItemByItem(OptEncodable(partition), CompleteHead(options, partition, count), CompleteHeadPlan(partition),
                    CompleteGroup(raw, mixed), CompletePlan(raw, mixed), CompleteCheck(raw, mixed), count,
                    18, 20);
  }

  method CompleteMany(partitionKey: Arg, raw: seq<Arg>, mixed: bool, auto: bool, options: Options, maxBodyBytes: nat)
    returns (r: Outcome)
    requires |raw| % (if mixed then 4 else 3) == 0
    ensures var count := if mixed then |raw| / 4 else |raw| / 3;
            var partition := if auto || mixed then None else Some(partitionKey);
            var fields := CompleteHead(options, partition, count) + Groups(CompleteGroup(raw, mixed), count);
            && (r.Encoded? <==> CompleteOptionsOk(options) && count <= MAX_U32 && OptEncodable(partition)
                                && AllFine(CompleteCheck(raw, mixed), count)
                                && Size(fields) <= maxBodyBytes)
            && (r.Encoded? ==> AllOk(fields) && r.payload == BytesOf(fields))
            && (r.TooLarge? ==> Size(fields) > maxBodyBytes)
            && (r.NotCompact? <==> !(CompleteOptionsOk(options) && count <= MAX_U32) || Refused(OptEncodable(partition), CompleteEarly(raw, mixed), CompleteCheck(raw, mixed),
                                              18 + count * 20 > maxBodyBytes, count, Ineligible))
            && (r.BadArgument? <==> CompleteOptionsOk(options) && count <= MAX_U32 && Refused(OptEncodable(partition), CompleteEarly(raw, mixed), CompleteCheck(raw, mixed),
                                              18 + count * 20 > maxBodyBytes, count, Faulty))
  {
    var count := if mixed then |raw| / 4 else |raw| / 3;
    var partition := if auto || mixed then None else Some(partitionKey);
    if !CompleteOptionsOk(options) || count > MAX_U32 { return NotCompact; }
    var head := CompleteHead(options, partition, count);
    var headFine := OptEncodable(partition);
    CompletePlanExact(options, partition, count, raw, mixed);
    hide CompleteHead, CompleteHeadPlan, Encodable, OptEncodable, AllOk, FieldOk, Size, Refused, CompleteOptionsOk;
    r := EncodeRequest(headFine, head, CompleteHeadPlan(partition), CompleteGroup(raw, mixed), CompletePlan(raw, mixed),
                       CompleteEarly(raw, mixed),
                       CompleteCheck(raw, mixed), 18 + count * 20, count, maxBodyBytes);
  }

  lemma {:induction false} CompleteReadBack(options: Options, partition: Option<Arg>, count: nat, raw: seq<Arg>, mixed: bool)
    requires CompleteOptionsOk(options) && count <= MAX_U32 && OptEncodable(partition) &&
             AllFine(CompleteCheck(raw, mixed), count)
    ensures var head := CompleteHead(options, partition, count);
            var fields := head + Groups(CompleteGroup(raw, mixed), count);
            AllOk(fields) && ReadRequest(COMPLETE_HEAD, COMPLETE_ITEM, BytesOf(fields))
                             == Some((head, GroupList(CompleteGroup(raw, mixed), 0, count)))
  {
    CompleteHeadExact(options, partition, count);
    forall i: nat | i < count
      ensures AllOk(CompleteGroup(raw, mixed)(i)) && KindsOf(CompleteGroup(raw, mixed)(i)) == COMPLETE_ITEM
    {
      CompleteItem(raw, mixed, i);
    }
    hide AllOk, Size, CompleteOptionsOk;
    RequestRoundTrip(CompleteHead(options, partition, count), COMPLETE_ITEM, CompleteGroup(raw, mixed), count);
  }

  // ----- FLOW.RETRY_MANY -----

  /** Items are written as those of a completion. */
  predicate RetryOptionsOk(options: Options) {
    !options.unsupported && IsSafe(options.nowMs) && IsSafe(options.runAtMs) && !options.returnMode.OtherMode?
  }

  function RetryHead(options: Options, partition: Option<Arg>, count: nat): seq<Field> {
    [U8(if options.returnMode.OkOnSuccess? then 0x98 else 0x97), Opt(if partition.Some? then Some(BytesAt([partition.value], 0)) else None),
     I64(Clamped(options.nowMs)), I64(Clamped(options.runAtMs)), U8(IndependentMode(options.independent)), U32(count)]
  }

  const RETRY_HEAD := [KU8, KOpt, KI64, KI64, KU8, KU32]

  function RetryHeadPlan(partition: Option<Arg>): nat {
    1 + 4 + (if partition.Some? then |BytesAt([partition.value], 0)| else 0) + 8 + 8 + 1 + 4
  }

  lemma {:induction false} RetryHeadExact(options: Options, partition: Option<Arg>, count: nat)
    requires RetryOptionsOk(options) && count <= MAX_U32
    ensures var head := RetryHead(options, partition, count);
            && Size(head) == RetryHeadPlan(partition) >= 26
            && (OptEncodable(partition) ==> AllOk(head))
            && KindsOf(head) == RETRY_HEAD
  {
    SizeOfShort(RetryHead(options, partition, count));
  }

  lemma {:induction false} RetryPlanExact(options: Options, partition: Option<Arg>, count: nat, raw: seq<Arg>, mixed: bool)
    requires RetryOptionsOk(options) && count <= MAX_U32
    ensures var head := RetryHead(options, partition, count);
            && PlanIsExact(OptEncodable(partition), head, RetryHeadPlan(partition), CompleteGroup(raw, mixed),
                           CompletePlan(raw, mixed), CompleteCheck(raw, mixed), count)
            && 26 + count * 20 <= Size(head) + Size(Groups(CompleteGroup(raw, mixed), count))
  {
    RetryHeadExact(options, partition, count);
    hide RetryHead, RetryHeadPlan, Encodable, OptEncodable, AllOk, Size, RetryOptionsOk;
    forall i: nat | i < count
      ensures ItemExact(CompleteGroup(raw, mixed), CompletePlan(raw, mixed), CompleteCheck(raw, mixed), 20, i)
    {
      CompleteItem(raw, mixed, i);
    }
    ExactItemByItem(OptEncodable(partition), RetryHead(options, partition, count), RetryHeadPlan(partition),
                    CompleteGroup(raw, mixed), CompletePlan(raw, mixed), CompleteCheck(raw, mixed), count,
                    26, 20);
  }

  method RetryMany(partitionKey: Arg, raw: seq<Arg>, mixed: bool, auto: bool, options: Options, maxBodyBytes: nat)
    returns (r: Outcome)
    requires |raw| % (if mixed then 4 else 3) == 0
    ensures var count := if mixed then |raw| / 4 else |raw| / 3;
            var partition := if auto || mixed then None else Some(partitionKey);
            var fields := RetryHead(options, partition, count) + Groups(CompleteGroup(raw, mixed), count);
            && (r.Encoded? <==> RetryOptionsOk(options) && count <= MAX_U32 && OptEncodable(partition)
                                && AllFine(CompleteCheck(raw, mixed), count)
                                && Size(fields) <= maxBodyBytes)
            && (r.Encoded? ==> AllOk(fields) && r.payload == BytesOf(fields))
            && (r.TooLarge? ==> Size(fields) > maxBodyBytes)
            && (r.NotCompact? <==> !(RetryOptionsOk(options) && count <= MAX_U32) || Refused(OptEncodable(partition), CompleteEarly(raw, mixed), CompleteCheck(raw, mixed),
                                              26 + count * 20 > maxBodyBytes, count, Ineligible))
            && (r.BadArgument? <==> RetryOptionsOk(options) && count <= MAX_U32 && Refused(OptEncodable(partition), CompleteEarly(raw, mixed), CompleteCheck(raw, mixed),
                                              26 + count * 20 > maxBodyBytes, count, Faulty))
  {
    var count := if mixed then |raw| / 4 else |raw| / 3;
    var partition := if auto || mixed then None else Some(partitionKey);
    if !RetryOptionsOk(options) || count > MAX_U32 { return NotCompact; }
    var head := RetryHead(options, partition, count);
    var headFine := OptEncodable(partition);
    RetryPlanExact(options, partition, count, raw, mixed);
    hide RetryHead, RetryHeadPlan, Encodable, OptEncodable, AllOk, FieldOk, Size, Refused, RetryOptionsOk;
    r := EncodeRequest(headFine, head, RetryHeadPlan(partition), CompleteGroup(raw, mixed), CompletePlan(raw, mixed),
                       CompleteEarly(raw, mixed),
                       CompleteCheck(raw, mixed), 26 + count * 20, count, maxBodyBytes);
  }

  lemma {:induction false} RetryReadBack(options: Options, partition: Option<Arg>, count: nat, raw: seq<Arg>, mixed: bool)
    requires RetryOptionsOk(options) && count <= MAX_U32 && OptEncodable(partition) && AllFine(CompleteCheck(raw, mixed), count)
    ensures var head := RetryHead(options, partition, count);
            var fields := head + Groups(CompleteGroup(raw, mixed), count);
            AllOk(fields) && ReadRequest(RETRY_HEAD, COMPLETE_ITEM, BytesOf(fields))
                             == Some((head, GroupList(CompleteGroup(raw, mixed), 0, count)))
  {
    RetryHeadExact(options, partition, count);
    forall i: nat | i < count
      ensures AllOk(CompleteGroup(raw, mixed)(i)) && KindsOf(CompleteGroup(raw, mixed)(i)) == COMPLETE_ITEM
    {
      CompleteItem(raw, mixed, i);
    }
    hide AllOk, Size, RetryOptionsOk;
    RequestRoundTrip(RetryHead(options, partition, count), COMPLETE_ITEM, CompleteGroup(raw, mixed), count);
  }

  // ----- FLOW.CANCEL_MANY -----

  predicate CancelOptionsOk(options: Options) {
    !options.unsupported && IsTime(options.nowMs) && !options.returnMode.OtherMode?
  }

  /** A cancellation has items, and none of them is cut off. */
  predicate WholeItems(raw: seq<Arg>, mixed: bool) {
    raw != [] && if mixed then |raw| % 3 == 0 else |raw| % 2 == 0
  }

  function CancelIndex(mixed: bool, i: nat): nat {
    if mixed then 3 * i else 2 * i
  }

  function CancelFields(raw: seq<Arg>, mixed: bool, i: nat): seq<Field> {
    var at := CancelIndex(mixed, i);
    [Bin(BytesAt(raw, at)), Opt(ItemPartition(raw, mixed, at + 1)), I64(IntAt(raw, at + if mixed then 2 else 1))]
  }

  function CancelGroup(raw: seq<Arg>, mixed: bool): nat -> seq<Field> {
    (i: nat) => CancelFields(raw, mixed, i)
  }

  function CancelPlan(raw: seq<Arg>, mixed: bool): nat -> nat {
    (i: nat) =>
      var at := CancelIndex(mixed, i);
      4 + |BytesAt(raw, at)| + 4 + OptLength(ItemPartition(raw, mixed, at + 1)) + 8
  }

  function CancelEarly(raw: seq<Arg>, mixed: bool): nat -> Verdict {
    (i: nat) =>
      var at := CancelIndex(mixed, i);
      if At(raw, at).Other? || (mixed && At(raw, at + 1).Other?) then Ineligible
      else FencingVerdict(At(raw, at + if mixed then 2 else 1))
  }

  function CancelCheck(raw: seq<Arg>, mixed: bool): nat -> Verdict {
    (i: nat) =>
      var at := CancelIndex(mixed, i);
      if At(raw, at).Other? || (mixed && At(raw, at + 1).Other?) then Ineligible
      else if !IsShort(At(raw, at)) || (mixed && !IsShort(At(raw, at + 1))) then Faulty
      else FencingVerdict(At(raw, at + if mixed then 2 else 1))
  }

  const CANCEL_ITEM := [KBin, KOpt, KI64]

  lemma {:induction false} CancelItem(raw: seq<Arg>, mixed: bool, i: nat)
    ensures Size(CancelFields(raw, mixed, i)) == CancelPlan(raw, mixed)(i) >= 16
    ensures CancelCheck(raw, mixed)(i).Fine? ==> AllOk(CancelFields(raw, mixed, i))
    ensures KindsOf(CancelFields(raw, mixed, i)) == CANCEL_ITEM
  {
    SizeOfShort(CancelFields(raw, mixed, i));
  }

  function CancelHead(options: Options, partition: Option<Arg>, count: nat): seq<Field> {
    [U8(if options.returnMode.OkOnSuccess? then 0x9a else 0x99), Opt(if partition.Some? then Some(BytesAt([partition.value], 0)) else None),
     I64(Clamped(options.nowMs)), U8(IndependentMode(options.independent)), U32(count)]
  }

  const CANCEL_HEAD := [KU8, KOpt, KI64, KU8, KU32]

  function CancelHeadPlan(partition: Option<Arg>): nat {
    1 + 4 + (if partition.Some? then |BytesAt([partition.value], 0)| else 0) + 8 + 1 + 4
  }

  lemma {:induction false} CancelHeadExact(options: Options, partition: Option<Arg>, count: nat)
    requires CancelOptionsOk(options) && count <= MAX_U32
    ensures var head := CancelHead(options, partition, count);
            && Size(head) == CancelHeadPlan(partition) >= 18
            && (OptEncodable(partition) ==> AllOk(head))
            && KindsOf(head) == CANCEL_HEAD
  {
    SizeOfShort(CancelHead(options, partition, count));
  }

  lemma {:induction false} CancelPlanExact(options: Options, partition: Option<Arg>, count: nat, raw: seq<Arg>, mixed: bool)
    requires CancelOptionsOk(options) && count <= MAX_U32
    ensures var head := CancelHead(options, partition, count);
            && PlanIsExact(OptEncodable(partition), head, CancelHeadPlan(partition), CancelGroup(raw, mixed),
                           CancelPlan(raw, mixed), CancelCheck(raw, mixed), count)
            && 18 + count * 16 <= Size(head) + Size(Groups(CancelGroup(raw, mixed), count))
  {
    CancelHeadExact(options, partition, count);
    hide CancelHead, CancelHeadPlan, Encodable, OptEncodable, AllOk, Size, CancelOptionsOk;
    forall i: nat | i < count
      ensures ItemExact(CancelGroup(raw, mixed), CancelPlan(raw, mixed), CancelCheck(raw, mixed), 16, i)
    {
      CancelItem(raw, mixed, i);
    }
    ExactItemByItem(OptEncodable(partition), CancelHead(options, partition, count), CancelHeadPlan(partition),
                    CancelGroup(raw, mixed), CancelPlan(raw, mixed), CancelCheck(raw, mixed), count,
                    18, 16);
  }

  method CancelMany(partitionKey: Arg, raw: seq<Arg>, mixed: bool, options: Options, maxBodyBytes: nat) returns (r: Outcome)
    ensures var count := if mixed then |raw| / 3 else |raw| / 2;
            var partition := if mixed then None else Some(partitionKey);
            var fields := CancelHead(options, partition, count) + Groups(CancelGroup(raw, mixed), count);
            && (r.Encoded? <==> CancelOptionsOk(options) && partitionKey.Scalar? && WholeItems(raw, mixed)
                                && count <= MAX_U32 && OptEncodable(partition)
                                && AllFine(CancelCheck(raw, mixed), count)
                                && Size(fields) <= maxBodyBytes)
            && (r.Encoded? ==> AllOk(fields) && r.payload == BytesOf(fields))
            && (r.TooLarge? ==> Size(fields) > maxBodyBytes)
            && (r.NotCompact? <==> !(CancelOptionsOk(options) && partitionKey.Scalar? && WholeItems(raw, mixed) && count <= MAX_U32) || Refused(OptEncodable(partition), CancelEarly(raw, mixed), CancelCheck(raw, mixed),
                                              18 + count * 16 > maxBodyBytes, count, Ineligible))
            && (r.BadArgument? <==> CancelOptionsOk(options) && partitionKey.Scalar? && WholeItems(raw, mixed) && count <= MAX_U32 && Refused(OptEncodable(partition), CancelEarly(raw, mixed), CancelCheck(raw, mixed),
                                              18 + count * 16 > maxBodyBytes, count, Faulty))
  {
    var count := if mixed then |raw| / 3 else |raw| / 2;
    var partition := if mixed then None else Some(partitionKey);
    if !CancelOptionsOk(options) || partitionKey.Other? || !WholeItems(raw, mixed) || count > MAX_U32 { return NotCompact; }
    var head := CancelHead(options, partition, count);
    var headFine := OptEncodable(partition);
    CancelPlanExact(options, partition, count, raw, mixed);
    hide CancelHead, CancelHeadPlan, Encodable, OptEncodable, AllOk, FieldOk, Size, Refused, CancelOptionsOk;
    r := EncodeRequest(headFine, head, CancelHeadPlan(partition), CancelGroup(raw, mixed), CancelPlan(raw, mixed),
                       CancelEarly(raw, mixed),
                       CancelCheck(raw, mixed), 18 + count * 16, count, maxBodyBytes);
  }

  lemma {:induction false} CancelReadBack(options: Options, partition: Option<Arg>, count: nat, raw: seq<Arg>, mixed: bool)
    requires CancelOptionsOk(options) && count <= MAX_U32 && OptEncodable(partition) && AllFine(CancelCheck(raw, mixed), count)
    ensures var head := CancelHead(options, partition, count);
            var fields := head + Groups(CancelGroup(raw, mixed), count);
            AllOk(fields) && ReadRequest(CANCEL_HEAD, CANCEL_ITEM, BytesOf(fields))
                             == Some((head, GroupList(CancelGroup(raw, mixed), 0, count)))
  {
    CancelHeadExact(options, partition, count);
    forall i: nat | i < count
      ensures AllOk(CancelGroup(raw, mixed)(i)) && KindsOf(CancelGroup(raw, mixed)(i)) == CANCEL_ITEM
    {
      CancelItem(raw, mixed, i);
    }
    hide AllOk, Size, CancelOptionsOk;
    RequestRoundTrip(CancelHead(options, partition, count), CANCEL_ITEM, CancelGroup(raw, mixed), count);
  }
}
