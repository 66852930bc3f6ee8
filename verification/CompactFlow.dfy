/** The compact encoders of flow commands: the fields each writes, the size it plans for them, and
    the proof that a reader of the format recovers everything. */
module CompactFlow {
  import opened Wrappers
  import opened Bytes
  import opened CompactFields
  import opened CompactPlan

  const MAX_SAFE_INTEGER: int := 0x1f_ffff_ffff_ffff
  const MAX_U32: nat := 0xffff_ffff

  /** The bytes of "-". */
  const DASH: seq<byte> := [0x2d]

  /** A numeric option: missing, a number that is a safe integer, or anything else. */
  datatype Number = Missing | Safe(n: int) | Unsuitable

  datatype ReturnMode = Regular | OkOnSuccess | OtherMode

  /** `unsupported` says that an option is set that the compact form cannot express. */
  datatype Options = Options(unsupported: bool, nowMs: Number, runAtMs: Number, independent: Option<bool>, returnMode: ReturnMode)

  predicate IsSafe(v: Number) {
    v.Safe? && -MAX_SAFE_INTEGER <= v.n <= MAX_SAFE_INTEGER
  }

  predicate IsTime(v: Number) {
    IsSafe(v) && v.n >= 0
  }

  function Clamped(v: Number): int {
    if IsSafe(v) then v.n else 0
  }

  /** The time to run at is the given one, or now. */
  function RunAt(options: Options): Number {
    if options.runAtMs.Missing? then options.nowMs else options.runAtMs
  }

  /** The flag of independent execution: unset, off, on. */
  function IndependentMode(independent: Option<bool>): nat {
    match independent
    case None => 0
    case Some(false) => 1
    case Some(true) => 2
  }

  /** An absent number is the smallest 64-bit integer, which no safe integer equals. */
  function OptionalI64(v: Number): int {
    if IsSafe(v) then v.n else MIN_I64
  }

  /** The partition of an item is written only in a mixed request. */
  function ItemPartition(raw: seq<Arg>, mixed: bool, i: nat): Option<seq<byte>> {
    if mixed then Some(BytesAt(raw, i)) else None
  }

  function OptLength(value: Option<seq<byte>>): nat {
    if value.None? then 0 else |value.value|
  }

  // ----- FLOW.TRANSITION_MANY -----

  /** A lease of "-" stands for no lease. */
  function LeaseOf(bytes: seq<byte>): Option<seq<byte>> {
    if bytes == DASH then None else Some(bytes)
  }

  function TransitionIndex(mixed: bool, i: nat): nat {
    if mixed then 4 * i else 3 * i
  }

  function TransitionFields(raw: seq<Arg>, mixed: bool, i: nat): seq<Field> {
    var at := TransitionIndex(mixed, i);
    [Bin(BytesAt(raw, at)), Opt(ItemPartition(raw, mixed, at + 1)), I64(IntAt(raw, at + if mixed then 2 else 1)),
     Opt(LeaseOf(BytesAt(raw, at + if mixed then 3 else 2)))]
  }

  function TransitionGroup(raw: seq<Arg>, mixed: bool): nat -> seq<Field> {
    (i: nat) => TransitionFields(raw, mixed, i)
  }

  function TransitionPlan(raw: seq<Arg>, mixed: bool): nat -> nat {
    (i: nat) =>
      var at := TransitionIndex(mixed, i);
      4 + |BytesAt(raw, at)| + 4 + OptLength(ItemPartition(raw, mixed, at + 1)) + 8
      + 4 + OptLength(LeaseOf(BytesAt(raw, at + if mixed then 3 else 2)))
  }

  function FencingVerdict(a: Arg): Verdict {
    if a.Other? || a.integer.None? then Faulty else if a.integer.value < 0 then Ineligible else Fine
  }

  function TransitionEarly(raw: seq<Arg>, mixed: bool): nat -> Verdict {
    (i: nat) =>
      var at := TransitionIndex(mixed, i);
      if At(raw, at).Other? || (mixed && At(raw, at + 1).Other?) || At(raw, at + if mixed then 3 else 2).Other? then Ineligible
      else FencingVerdict(At(raw, at + if mixed then 2 else 1))
  }

  function TransitionCheck(raw: seq<Arg>, mixed: bool): nat -> Verdict {
    (i: nat) =>
      var at := TransitionIndex(mixed, i);
      var lease := At(raw, at + if mixed then 3 else 2);
      if At(raw, at).Other? || (mixed && At(raw, at + 1).Other?) || lease.Other? then Ineligible
      else if !IsShort(At(raw, at)) || (mixed && !IsShort(At(raw, at + 1))) then Faulty
      else if !FencingVerdict(At(raw, at + if mixed then 2 else 1)).Fine? then FencingVerdict(At(raw, at + if mixed then 2 else 1))
      else if !IsShort(lease) then Faulty
      else Fine
  }

  function TransitionHead(options: Options, from: Arg, target: Arg, partition: Option<Arg>, count: nat): seq<Field> {
    [U8(if options.returnMode.OkOnSuccess? then 0x9c else 0x9b), Bin(BytesAt([from], 0)), Bin(BytesAt([target], 0)),
     Opt(if partition.Some? then Some(BytesAt([partition.value], 0)) else None),
     I64(Clamped(options.nowMs)), I64(Clamped(RunAt(options))), U8(IndependentMode(options.independent)), U32(count)]
  }

  const TRANSITION_HEAD := [KU8, KBin, KBin, KOpt, KI64, KI64, KU8, KU32]
  const TRANSITION_ITEM := [KBin, KOpt, KI64, KOpt]

  predicate Encodable(a: Arg) {
    a.Scalar? && IsShort(a)
  }

  predicate OptEncodable(a: Option<Arg>) {
    a.Some? ==> Encodable(a.value)
  }

  lemma {:induction false} TransitionItem(raw: seq<Arg>, mixed: bool, i: nat)
    ensures Size(TransitionFields(raw, mixed, i)) == TransitionPlan(raw, mixed)(i) >= 20
    ensures TransitionCheck(raw, mixed)(i).Fine? ==> AllOk(TransitionFields(raw, mixed, i))
    ensures KindsOf(TransitionFields(raw, mixed, i)) == TRANSITION_ITEM
  {
    SizeOfShort(TransitionFields(raw, mixed, i));
  }

  predicate TransitionOptionsOk(options: Options) {
    !options.unsupported && IsTime(options.nowMs) && IsTime(RunAt(options)) && !options.returnMode.OtherMode?
  }

  /** Encoded exactly when the options allow it, every item can be encoded and the whole fits the
      body limit; then the payload is the head followed by one group of fields for each item. */
  method TransitionMany(partition: Arg, from: Arg, target: Arg, raw: seq<Arg>, mixed: bool, options: Options, maxBodyBytes: nat)
    returns (r: Outcome)
    requires |raw| % (if mixed then 4 else 3) == 0
    ensures var count := if mixed then |raw| / 4 else |raw| / 3;
            var part := if mixed then None else Some(partition);
            var fields := TransitionHead(options, from, target, part, count) + Groups(TransitionGroup(raw, mixed), count);
            && (r.Encoded? <==> TransitionOptionsOk(options) && count <= MAX_U32 && Encodable(from) && Encodable(target)
                                && OptEncodable(part) && AllFine(TransitionCheck(raw, mixed), count) && Size(fields) <= maxBodyBytes)
            && (r.Encoded? ==> AllOk(fields) && r.payload == BytesOf(fields))
            && (r.TooLarge? ==> Size(fields) > maxBodyBytes)
            && (r.NotCompact? <==> !(TransitionOptionsOk(options) && count <= MAX_U32) || Refused(Encodable(from) && Encodable(target) && OptEncodable(part), TransitionEarly(raw, mixed),
                                              TransitionCheck(raw, mixed), 34 + count * 20 > maxBodyBytes, count, Ineligible))
            && (r.BadArgument? <==> TransitionOptionsOk(options) && count <= MAX_U32 && Refused(Encodable(from) && Encodable(target) && OptEncodable(part), TransitionEarly(raw, mixed),
                                              TransitionCheck(raw, mixed), 34 + count * 20 > maxBodyBytes, count, Faulty))
  {
    var count := if mixed then |raw| / 4 else |raw| / 3;
    var part := if mixed then None else Some(partition);
    if !TransitionOptionsOk(options) || count > MAX_U32 { return NotCompact; }
    var head := TransitionHead(options, from, target, part, count);
    var headFine := Encodable(from) && Encodable(target) && OptEncodable(part);
    hide TransitionHead, TransitionHeadPlan, Encodable, OptEncodable, AllOk, FieldOk, Size, Refused, IsTime;
    TransitionPlanExact(options, from, target, part, raw, mixed, count);
    r := EncodeRequest(headFine, head, TransitionHeadPlan(from, target, part), TransitionGroup(raw, mixed), TransitionPlan(raw, mixed),
                       TransitionEarly(raw, mixed), TransitionCheck(raw, mixed), 34 + count * 20, count, maxBodyBytes);
  }

  function TransitionHeadPlan(from: Arg, target: Arg, partition: Option<Arg>): nat {
    1 + 4 + |BytesAt([from], 0)| + 4 + |BytesAt([target], 0)|
    + 4 + (if partition.Some? then |BytesAt([partition.value], 0)| else 0) + 8 + 8 + 1 + 4
  }

  lemma {:induction false} TransitionPlanExact(options: Options, from: Arg, target: Arg, partition: Option<Arg>, raw: seq<Arg>, mixed: bool, count: nat)
    requires TransitionOptionsOk(options) && count <= MAX_U32
    ensures var head := TransitionHead(options, from, target, partition, count);
            && PlanIsExact(Encodable(from) && Encodable(target) && OptEncodable(partition), head,
                           TransitionHeadPlan(from, target, partition), TransitionGroup(raw, mixed), TransitionPlan(raw, mixed),
                           TransitionCheck(raw, mixed), count)
            && 34 + count * 20 <= Size(head) + Size(Groups(TransitionGroup(raw, mixed), count))
  {
    var head := TransitionHead(options, from, target, partition, count);
    var headFine := Encodable(from) && Encodable(target) && OptEncodable(partition);
    TransitionHeadExact(options, from, target, partition, count);
    hide TransitionHead, TransitionHeadPlan, Encodable, OptEncodable, AllOk, Size, TransitionOptionsOk;
    forall i: nat | i < count
      ensures ItemExact(TransitionGroup(raw, mixed), TransitionPlan(raw, mixed), TransitionCheck(raw, mixed), 20, i)
    {
      TransitionItem(raw, mixed, i);
    }
    ExactItemByItem(headFine, head, TransitionHeadPlan(from, target, partition), TransitionGroup(raw, mixed),
                    TransitionPlan(raw, mixed), TransitionCheck(raw, mixed), count, 34, 20);
  }

  lemma {:induction false} TransitionHeadExact(options: Options, from: Arg, target: Arg, partition: Option<Arg>, count: nat)
    requires TransitionOptionsOk(options) && count <= MAX_U32
    ensures var head := TransitionHead(options, from, target, partition, count);
            && Size(head) == TransitionHeadPlan(from, target, partition) >= 34
            && (Encodable(from) && Encodable(target) && OptEncodable(partition) ==> AllOk(head))
            && KindsOf(head) == TRANSITION_HEAD
  {
    SizeOfShort(TransitionHead(options, from, target, partition, count));
  }

  /** Reading an encoded transition gives back the states, the partition, the times, the mode, and
      for each item its identifier, partition, fencing value and lease. */
  lemma {:induction false} TransitionReadBack(options: Options, from: Arg, target: Arg, partition: Option<Arg>, raw: seq<Arg>, mixed: bool, count: nat)
    requires TransitionOptionsOk(options) && count <= MAX_U32 && Encodable(from) && Encodable(target) && OptEncodable(partition)
    requires AllFine(TransitionCheck(raw, mixed), count)
    ensures var head := TransitionHead(options, from, target, partition, count);
            var fields := head + Groups(TransitionGroup(raw, mixed), count);
            AllOk(fields) && ReadRequest(TRANSITION_HEAD, TRANSITION_ITEM, BytesOf(fields))
                             == Some((head, GroupList(TransitionGroup(raw, mixed), 0, count)))
  {
    var head := TransitionHead(options, from, target, partition, count);
    forall i: nat | i < count
      ensures AllOk(TransitionGroup(raw, mixed)(i)) && KindsOf(TransitionGroup(raw, mixed)(i)) == TRANSITION_ITEM
    {
      TransitionItem(raw, mixed, i);
    }
    assert KindsOf(head) == TRANSITION_HEAD;
    RequestRoundTrip(head, TRANSITION_ITEM, TransitionGroup(raw, mixed), count);
  }
}
