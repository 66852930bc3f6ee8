/** What a server makes of the compact flow requests: decoders that name every part of a request,
    written from the formats alone, and the proof that they recover what the encoders were given. */
module CompactReaders {
  import opened Wrappers
  import opened Bytes
  import opened CompactFields
  import opened CompactPlan
  import opened CompactFlow
  import opened CompactFlowMany
  import opened CompactFlowSingle
  import opened CompactRequest

  // ----- Parts of what has been read -----

  function NumberAt(fields: seq<Field>, i: nat): nat {
    if i < |fields| && (fields[i].U8? || fields[i].U16? || fields[i].U32?) then fields[i].n else 0
  }

  function IntegerAt(fields: seq<Field>, i: nat): int {
    if i < |fields| && fields[i].I64? then fields[i].i else 0
  }

  function BinAt(fields: seq<Field>, i: nat): seq<byte> {
    if i < |fields| && fields[i].Bin? then fields[i].bytes else []
  }

  function OptAt(fields: seq<Field>, i: nat): Option<seq<byte>> {
    if i < |fields| && fields[i].Opt? then fields[i].value else None
  }

  /** The smallest 64-bit integer stands for an absent one. */
  function PresentAt(fields: seq<Field>, i: nat): Option<int> {
    if IntegerAt(fields, i) == MIN_I64 then None else Some(IntegerAt(fields, i))
  }

  /** 0 is unset, 1 is off and 2 is on. */
  function IndependentAt(fields: seq<Field>, i: nat): Option<bool> {
    match NumberAt(fields, i)
    case 1 => Some(false)
    case 2 => Some(true)
    case _ => None
  }

  function Mapped<T>(groups: seq<seq<Field>>, read: seq<Field> -> T): (r: seq<T>)
    ensures |r| == |groups| && forall i | 0 <= i < |r| :: r[i] == read(groups[i])
  {
    seq(|groups|, i requires 0 <= i < |groups| => read(groups[i]))
  }

  function Listed<T>(item: nat -> T, n: nat): (r: seq<T>)
    ensures |r| == n && forall i: nat | i < n :: r[i] == item(i)
  {
    seq(n, i requires 0 <= i < n => item(i))
  }

  lemma ItemsRead<T>(group: nat -> seq<Field>, n: nat, read: seq<Field> -> T, item: nat -> T)
    requires forall i: nat | i < n :: read(group(i)) == item(i)
    ensures Mapped(GroupList(group, 0, n), read) == Listed(item, n)
  {
  }

  // ----- Transitions, completions, retries and cancellations -----

  datatype Item = Item(id: seq<byte>, partition: Option<seq<byte>>, lease: Option<seq<byte>>, fencing: int)

  datatype ManyRequest = ManyRequest(onSuccess: bool, partition: Option<seq<byte>>, nowMs: int, runAtMs: Option<int>,
                                     independent: Option<bool>, items: seq<Item>)

  datatype Transition = Transition(from: seq<byte>, target: seq<byte>, request: ManyRequest)

  function PartitionBytes(partition: Option<Arg>): Option<seq<byte>> {
    if partition.Some? && partition.value.Scalar? then Some(partition.value.bytes) else None
  }

  function ReadTransition(s: seq<byte>): Option<Transition> {
    match ReadRequest(TRANSITION_HEAD, TRANSITION_ITEM, s)
    case None => None
    case Some(r) => TransitionFrom(r.0, Mapped(r.1, TransitionItemOf))
  }

  function TransitionFrom(head: seq<Field>, items: seq<Item>): Option<Transition> {
    if NumberAt(head, 0) != 0x9b && NumberAt(head, 0) != 0x9c then None
    else Some(Transition(BinAt(head, 1), BinAt(head, 2),
                         ManyRequest(NumberAt(head, 0) == 0x9c, OptAt(head, 3), IntegerAt(head, 4), Some(IntegerAt(head, 5)),
                                     IndependentAt(head, 6), items)))
  }

  function TransitionItemOf(g: seq<Field>): Item {
    Item(BinAt(g, 0), OptAt(g, 1), OptAt(g, 3), IntegerAt(g, 2))
  }

  /** Arguments of an item: identifier, partition if mixed, fencing value, lease. */
  function TransitionItemsOf(raw: seq<Arg>, mixed: bool): nat -> Item {
    (i: nat) =>
      if mixed then Item(BytesAt(raw, 4 * i), Some(BytesAt(raw, 4 * i + 1)), LeaseOf(BytesAt(raw, 4 * i + 3)), IntAt(raw, 4 * i + 2))
      else Item(BytesAt(raw, 3 * i), None, LeaseOf(BytesAt(raw, 3 * i + 2)), IntAt(raw, 3 * i + 1))
  }

  /** An encoded transition is read as the states, partition, times, mode and items it was made of;
      it runs at the given time, or now. */
  lemma {:induction false} TransitionIsRead(options: Options, from: Arg, target: Arg, partition: Option<Arg>, raw: seq<Arg>, mixed: bool, count: nat)
    requires TransitionOptionsOk(options) && count <= MAX_U32 && Encodable(from) && Encodable(target) && OptEncodable(partition)
    requires AllFine(TransitionCheck(raw, mixed), count)
    ensures var fields := TransitionHead(options, from, target, partition, count) + Groups(TransitionGroup(raw, mixed), count);
            var runAtMs := if options.runAtMs.Missing? then options.nowMs.n else options.runAtMs.n;
            AllOk(fields) && ReadTransition(BytesOf(fields))
            == Some(Transition(from.bytes, target.bytes,
                               ManyRequest(options.returnMode.OkOnSuccess?, PartitionBytes(partition), options.nowMs.n, Some(runAtMs),
                                           options.independent, Listed(TransitionItemsOf(raw, mixed), count))))
  {
    hide TransitionHead, TransitionOptionsOk, TransitionCheck, TransitionFrom, TransitionGroup, TransitionItemsOf;
    hide Encodable, OptEncodable, PartitionBytes, Mapped, Listed, GroupList, Groups, ReadRequest, BytesOf, AllOk;
    TransitionReadBack(options, from, target, partition, raw, mixed, count);
    TransitionItemsRead(raw, mixed, count);
    TransitionHeadRead(options, from, target, partition, count, Listed(TransitionItemsOf(raw, mixed), count));
  }

  lemma {:induction false} TransitionItemsRead(raw: seq<Arg>, mixed: bool, count: nat)
    ensures Mapped(GroupList(TransitionGroup(raw, mixed), 0, count), TransitionItemOf) == Listed(TransitionItemsOf(raw, mixed), count)
  {
    hide BytesAt, IntAt, LeaseOf, GroupList, Mapped, Listed;
    ItemsRead(TransitionGroup(raw, mixed), count, TransitionItemOf, TransitionItemsOf(raw, mixed));
  }

  lemma TransitionHeadRead(options: Options, from: Arg, target: Arg, partition: Option<Arg>, count: nat, items: seq<Item>)
    requires TransitionOptionsOk(options) && Encodable(from) && Encodable(target) && OptEncodable(partition)
    ensures var runAtMs := if options.runAtMs.Missing? then options.nowMs.n else options.runAtMs.n;
            TransitionFrom(TransitionHead(options, from, target, partition, count), items)
            == Some(Transition(from.bytes, target.bytes,
                               ManyRequest(options.returnMode.OkOnSuccess?, PartitionBytes(partition), options.nowMs.n, Some(runAtMs),
                                           options.independent, items)))
  {
  }

  function ReadComplete(s: seq<byte>): Option<ManyRequest> {
    match ReadRequest(COMPLETE_HEAD, COMPLETE_ITEM, s)
    case None => None
    case Some(r) => CompleteFrom(r.0, Mapped(r.1, CompleteItemOf))
  }

  function CompleteFrom(head: seq<Field>, items: seq<Item>): Option<ManyRequest> {
    if NumberAt(head, 0) != 0x92 && NumberAt(head, 0) != 0x93 then None
    else Some(ManyRequest(NumberAt(head, 0) == 0x93, OptAt(head, 1), IntegerAt(head, 2), None, IndependentAt(head, 3), items))
  }

  function CompleteItemOf(g: seq<Field>): Item {
    Item(BinAt(g, 0), OptAt(g, 1), Some(BinAt(g, 2)), IntegerAt(g, 3))
  }

  /** Arguments of an item: identifier, partition if mixed, lease, fencing value. */
  function CompleteItemsOf(raw: seq<Arg>, mixed: bool): nat -> Item {
    (i: nat) =>
      if mixed then Item(BytesAt(raw, 4 * i), Some(BytesAt(raw, 4 * i + 1)), Some(BytesAt(raw, 4 * i + 2)), IntAt(raw, 4 * i + 3))
      else Item(BytesAt(raw, 3 * i), None, Some(BytesAt(raw, 3 * i + 1)), IntAt(raw, 3 * i + 2))
  }

  lemma {:induction false} CompleteIsRead(options: Options, partition: Option<Arg>, count: nat, raw: seq<Arg>, mixed: bool)
    requires CompleteOptionsOk(options) && count <= MAX_U32 && OptEncodable(partition) && AllFine(CompleteCheck(raw, mixed), count)
    ensures var fields := CompleteHead(options, partition, count) + Groups(CompleteGroup(raw, mixed), count);
            AllOk(fields) && ReadComplete(BytesOf(fields))
            == Some(ManyRequest(options.returnMode.OkOnSuccess?, PartitionBytes(partition), options.nowMs.n, None,
                                options.independent, Listed(CompleteItemsOf(raw, mixed), count)))
  {
    hide CompleteHead, CompleteOptionsOk, CompleteCheck, CompleteFrom, CompleteGroup, CompleteItemsOf;
    hide Encodable, OptEncodable, PartitionBytes, Mapped, Listed, GroupList, Groups, ReadRequest, BytesOf, AllOk;
    CompleteReadBack(options, partition, count, raw, mixed);
    CompleteItemsRead(raw, mixed, count);
    CompleteHeadRead(options, partition, count, Listed(CompleteItemsOf(raw, mixed), count));
  }

  lemma {:induction false} CompleteItemsRead(raw: seq<Arg>, mixed: bool, count: nat)
    ensures Mapped(GroupList(CompleteGroup(raw, mixed), 0, count), CompleteItemOf) == Listed(CompleteItemsOf(raw, mixed), count)
  {
    hide BytesAt, IntAt, GroupList, Mapped, Listed;
    ItemsRead(CompleteGroup(raw, mixed), count, CompleteItemOf, CompleteItemsOf(raw, mixed));
  }

  lemma CompleteHeadRead(options: Options, partition: Option<Arg>, count: nat, items: seq<Item>)
    requires CompleteOptionsOk(options) && OptEncodable(partition)
    ensures CompleteFrom(CompleteHead(options, partition, count), items)
            == Some(ManyRequest(options.returnMode.OkOnSuccess?, PartitionBytes(partition), options.nowMs.n, None,
                                options.independent, items))
  {
  }

  function ReadRetry(s: seq<byte>): Option<ManyRequest> {
    match ReadRequest(RETRY_HEAD, COMPLETE_ITEM, s)
    case None => None
    case Some(r) => RetryFrom(r.0, Mapped(r.1, CompleteItemOf))
  }

  function RetryFrom(head: seq<Field>, items: seq<Item>): Option<ManyRequest> {
    if NumberAt(head, 0) != 0x97 && NumberAt(head, 0) != 0x98 then None
    else Some(ManyRequest(NumberAt(head, 0) == 0x98, OptAt(head, 1), IntegerAt(head, 2), Some(IntegerAt(head, 3)), IndependentAt(head, 4), items))
  }

  lemma {:induction false} RetryIsRead(options: Options, partition: Option<Arg>, count: nat, raw: seq<Arg>, mixed: bool)
    requires RetryOptionsOk(options) && count <= MAX_U32 && OptEncodable(partition) && AllFine(CompleteCheck(raw, mixed), count)
    ensures var fields := RetryHead(options, partition, count) + Groups(CompleteGroup(raw, mixed), count);
            AllOk(fields) && ReadRetry(BytesOf(fields))
            == Some(ManyRequest(options.returnMode.OkOnSuccess?, PartitionBytes(partition), options.nowMs.n, Some(options.runAtMs.n),
                                options.independent, Listed(CompleteItemsOf(raw, mixed), count)))
  {
    hide RetryHead, RetryOptionsOk, CompleteCheck, RetryFrom, CompleteGroup, CompleteItemsOf;
    hide Encodable, OptEncodable, PartitionBytes, Mapped, Listed, GroupList, Groups, ReadRequest, BytesOf, AllOk;
    RetryReadBack(options, partition, count, raw, mixed);
    CompleteItemsRead(raw, mixed, count);
    RetryHeadRead(options, partition, count, Listed(CompleteItemsOf(raw, mixed), count));
  }

  lemma RetryHeadRead(options: Options, partition: Option<Arg>, count: nat, items: seq<Item>)
    requires RetryOptionsOk(options) && OptEncodable(partition)
    ensures RetryFrom(RetryHead(options, partition, count), items)
            == Some(ManyRequest(options.returnMode.OkOnSuccess?, PartitionBytes(partition), options.nowMs.n, Some(options.runAtMs.n),
                                options.independent, items))
  {
  }

  function ReadCancel(s: seq<byte>): Option<ManyRequest> {
    match ReadRequest(CANCEL_HEAD, CANCEL_ITEM, s)
    case None => None
    case Some(r) => CancelFrom(r.0, Mapped(r.1, CancelItemOf))
  }

  function CancelFrom(head: seq<Field>, items: seq<Item>): Option<ManyRequest> {
    if NumberAt(head, 0) != 0x99 && NumberAt(head, 0) != 0x9a then None
    else Some(ManyRequest(NumberAt(head, 0) == 0x9a, OptAt(head, 1), IntegerAt(head, 2), None, IndependentAt(head, 3), items))
  }

  function CancelItemOf(g: seq<Field>): Item {
    Item(BinAt(g, 0), OptAt(g, 1), None, IntegerAt(g, 2))
  }

  /** Arguments of an item: identifier, partition if mixed, fencing value. */
  function CancelItemsOf(raw: seq<Arg>, mixed: bool): nat -> Item {
    (i: nat) =>
      if mixed then Item(BytesAt(raw, 3 * i), Some(BytesAt(raw, 3 * i + 1)), None, IntAt(raw, 3 * i + 2))
      else Item(BytesAt(raw, 2 * i), None, None, IntAt(raw, 2 * i + 1))
  }

  lemma {:induction false} CancelIsRead(options: Options, partition: Option<Arg>, count: nat, raw: seq<Arg>, mixed: bool)
    requires CancelOptionsOk(options) && count <= MAX_U32 && OptEncodable(partition) && AllFine(CancelCheck(raw, mixed), count)
    ensures var fields := CancelHead(options, partition, count) + Groups(CancelGroup(raw, mixed), count);
            AllOk(fields) && ReadCancel(BytesOf(fields))
            == Some(ManyRequest(options.returnMode.OkOnSuccess?, PartitionBytes(partition), options.nowMs.n, None,
                                options.independent, Listed(CancelItemsOf(raw, mixed), count)))
  {
    hide CancelHead, CancelOptionsOk, CancelCheck, CancelFrom, CancelGroup, CancelItemsOf;
    hide Encodable, OptEncodable, PartitionBytes, Mapped, Listed, GroupList, Groups, ReadRequest, BytesOf, AllOk;
    CancelReadBack(options, partition, count, raw, mixed);
    CancelItemsRead(raw, mixed, count);
    CancelHeadRead(options, partition, count, Listed(CancelItemsOf(raw, mixed), count));
  }

  lemma {:induction false} CancelItemsRead(raw: seq<Arg>, mixed: bool, count: nat)
    ensures Mapped(GroupList(CancelGroup(raw, mixed), 0, count), CancelItemOf) == Listed(CancelItemsOf(raw, mixed), count)
  {
    hide BytesAt, IntAt, GroupList, Mapped, Listed;
    ItemsRead(CancelGroup(raw, mixed), count, CancelItemOf, CancelItemsOf(raw, mixed));
  }

  lemma CancelHeadRead(options: Options, partition: Option<Arg>, count: nat, items: seq<Item>)
    requires CancelOptionsOk(options) && OptEncodable(partition)
    ensures CancelFrom(CancelHead(options, partition, count), items)
            == Some(ManyRequest(options.returnMode.OkOnSuccess?, PartitionBytes(partition), options.nowMs.n, None,
                                options.independent, items))
  {
  }

  // ----- Creations -----

  datatype NewFlow = NewFlow(id: seq<byte>, partition: Option<seq<byte>>, payload: seq<byte>)

  datatype Creation = Creation(kind: seq<byte>, state: seq<byte>, partition: Option<seq<byte>>, nowMs: int, runAtMs: int,
                               independent: Option<bool>, items: seq<NewFlow>)

  /** The tag says whether a partition is given for each item, for all of them, or not at all. */
  function ReadCreate(s: seq<byte>): Option<Creation> {
    match ReadField(KU8, s)
    case None => None
    case Some((tag, _)) =>
      if tag != U8(0x90) && tag != U8(0x96) && tag != U8(0x9e) then None
      else
        var partitioned, mixed := tag == U8(0x96), tag == U8(0x9e);
        match ReadRequest(CreateHeadKinds(partitioned), CreateKinds(mixed), s)
        case None => None
        case Some(r) => Some(CreationFrom(r.0, partitioned, Mapped(r.1, NewFlowOf(mixed))))
  }

  function CreationFrom(head: seq<Field>, partitioned: bool, items: seq<NewFlow>): Creation {
    var at := if partitioned then 4 else 3;
    Creation(BinAt(head, 1), BinAt(head, 2), if partitioned then OptAt(head, 3) else None, IntegerAt(head, at),
             IntegerAt(head, at + 1), IndependentAt(head, at + 2), items)
  }

  function NewFlowOf(mixed: bool): seq<Field> -> NewFlow {
    (g: seq<Field>) =>
      if mixed then NewFlow(BinAt(g, 0), Some(BinAt(g, 1)), BinAt(g, 2)) else NewFlow(BinAt(g, 0), None, BinAt(g, 1))
  }

  /** Arguments of an item: identifier, partition if mixed, payload. */
  function NewFlowsOf(raw: seq<Arg>, mixed: bool): nat -> NewFlow {
    (i: nat) =>
      if mixed then NewFlow(BytesAt(raw, 3 * i), Some(BytesAt(raw, 3 * i + 1)), BytesAt(raw, 3 * i + 2))
      else NewFlow(BytesAt(raw, 2 * i), None, BytesAt(raw, 2 * i + 1))
  }

  lemma {:induction false} TagIsFirst(tag: nat, others: seq<Field>)
    requires tag < 256 && AllOk([U8(tag)] + others)
    ensures ReadField(KU8, BytesOf([U8(tag)] + others)).Some?
    ensures ReadField(KU8, BytesOf([U8(tag)] + others)).value.0 == U8(tag)
  {
    assert forall i | 0 <= i < |others| :: others[i] == ([U8(tag)] + others)[i + 1];
    BytesConcat([U8(tag)], others);
    BytesOfOne(U8(tag));
    FieldRoundTrip(U8(tag), BytesOf(others));
  }

  /** An encoded creation is read as what it was made of, whichever of the three forms it has. */
  lemma {:induction false} CreateIsRead(options: Options, kind: Arg, state: Arg, partitionKey: Arg, count: nat, raw: seq<Arg>, mixed: bool, auto: bool)
    requires CreateOptionsOk(options) && count <= MAX_U32 && Encodable(kind) && Encodable(state)
    requires mixed || auto || Encodable(partitionKey)
    requires AllFine(CreateCheck(raw, mixed), count)
    ensures var partition := if auto || mixed then None else Some(partitionKey);
            var fields := CreateHead(options, CreateTag(mixed, auto), kind, state, partition, count) + Groups(CreateGroup(raw, mixed), count);
            var runAtMs := if options.runAtMs.Missing? then options.nowMs.n else options.runAtMs.n;
            AllOk(fields) && ReadCreate(BytesOf(fields))
            == Some(Creation(kind.bytes, state.bytes, PartitionBytes(partition), options.nowMs.n, runAtMs, options.independent,
                             Listed(NewFlowsOf(raw, mixed), count)))
  {
    var partition := if auto || mixed then None else Some(partitionKey);
    var tag := CreateTag(mixed, auto);
    var head := CreateHead(options, tag, kind, state, partition, count);
    CreateTagFirst(options, tag, kind, state, partition, count);
    assert OptEncodable(partition);
    hide CreateHead, CreateOptionsOk, CreateCheck, CreationFrom, CreateGroup, NewFlowsOf, NewFlowOf, CreateKinds, CreateHeadKinds;
    hide ReadField, ReadCreate, IsShort;
    hide Encodable, OptEncodable, PartitionBytes, Mapped, Listed, GroupList, Groups, ReadRequest, BytesOf, AllOk;
    CreateReadBack(options, tag, kind, state, partition, count, raw, mixed);
    Associative([U8(tag)], head[1..], Groups(CreateGroup(raw, mixed), count));
    TagIsFirst(tag, head[1..] + Groups(CreateGroup(raw, mixed), count));
    TagDecides(BytesOf(head + Groups(CreateGroup(raw, mixed), count)), mixed, auto, head, GroupList(CreateGroup(raw, mixed), 0, count));
    NewFlowsRead(raw, mixed, count);
    CreationHeadRead(options, tag, kind, state, partition, count, Listed(NewFlowsOf(raw, mixed), count));
  }

  lemma CreateTagFirst(options: Options, tag: nat, kind: Arg, state: Arg, partition: Option<Arg>, count: nat)
    ensures var head := CreateHead(options, tag, kind, state, partition, count); |head| > 0 && head == [U8(tag)] + head[1..]
  {
  }

  lemma {:induction false} TagDecides(s: seq<byte>, mixed: bool, auto: bool, head: seq<Field>, groups: seq<seq<Field>>)
    requires ReadField(KU8, s).Some? && ReadField(KU8, s).value.0 == U8(CreateTag(mixed, auto))
    requires ReadRequest(CreateHeadKinds(!(auto || mixed)), CreateKinds(mixed), s) == Some((head, groups))
    ensures ReadCreate(s) == Some(CreationFrom(head, !(auto || mixed), Mapped(groups, NewFlowOf(mixed))))
  {
    hide ReadField, ReadRequest, CreateHeadKinds, CreateKinds, CreationFrom, NewFlowOf, Mapped;
  }

  lemma {:induction false} NewFlowsRead(raw: seq<Arg>, mixed: bool, count: nat)
    ensures Mapped(GroupList(CreateGroup(raw, mixed), 0, count), NewFlowOf(mixed)) == Listed(NewFlowsOf(raw, mixed), count)
  {
    hide BytesAt, GroupList, Mapped, Listed;
    ItemsRead(CreateGroup(raw, mixed), count, NewFlowOf(mixed), NewFlowsOf(raw, mixed));
  }

  lemma {:induction false} CreationHeadRead(options: Options, tag: nat, kind: Arg, state: Arg, partition: Option<Arg>, count: nat, items: seq<NewFlow>)
    requires CreateOptionsOk(options) && Encodable(kind) && Encodable(state) && OptEncodable(partition)
    ensures var runAtMs := if options.runAtMs.Missing? then options.nowMs.n else options.runAtMs.n;
            CreationFrom(CreateHead(options, tag, kind, state, partition, count), partition.Some?, items)
            == Creation(kind.bytes, state.bytes, PartitionBytes(partition), options.nowMs.n, runAtMs, options.independent, items)
  {
    if partition.Some? { hide IsShort; }
  }

  // ----- Claims -----

  datatype Named = AnyPartition | OnePartition(key: seq<byte>) | SeveralPartitions(keys: seq<seq<byte>>)

  datatype ClaimRequest = ClaimRequest(kind: seq<byte>, state: Option<seq<byte>>, worker: seq<byte>, leaseMs: int, limit: int,
                                       blockMs: Option<int>, reclaimExpired: bool, reclaimRatio: int, priority: Option<int>,
                                       returnMode: nat, partitions: Named)

  function ReadClaimRequest(s: seq<byte>): Option<ClaimRequest> {
    match ReadClaimDue(s)
    case None => None
    case Some(r) => ClaimFrom(r.main, NamedIn(r.tail, Mapped(r.keys, KeyOf)))
  }

  function NamedIn(tail: seq<Field>, keys: seq<seq<byte>>): Named {
    match NumberAt(tail, 0)
    case 0 => AnyPartition
    case 1 => OnePartition(BinAt(tail, 1))
    case _ => SeveralPartitions(keys)
  }

  function ClaimFrom(main: seq<Field>, partitions: Named): Option<ClaimRequest> {
    if NumberAt(main, 0) != 0x91 then None
    else Some(ClaimRequest(BinAt(main, 1), OptAt(main, 2), BinAt(main, 3), IntegerAt(main, 4), IntegerAt(main, 5),
                           PresentAt(main, 6), NumberAt(main, 7) == 1, IntegerAt(main, 8), PresentAt(main, 9),
                           NumberAt(main, 10), partitions))
  }

  function KeyOf(g: seq<Field>): seq<byte> {
    BinAt(g, 0)
  }

  function KeysOf(raw: seq<Arg>): nat -> seq<byte> {
    (i: nat) => BytesAt(raw, i)
  }

  function Given(v: Number): Option<int> {
    if v.Safe? then Some(v.n) else None
  }

  function NamedBy(partitions: Partitions): Named {
    match partitions
    case Any => AnyPartition
    case One(key) => OnePartition(BytesAt([key], 0))
    case Several(keys) => SeveralPartitions(Listed(KeysOf(keys), |keys|))
  }

  /** An encoded claim is read as what it was made of; absent and present options stay apart, and
      expired leases are reclaimed unless that is switched off. */
  lemma {:induction false} ClaimIsRead(c: Claim)
    requires ClaimOptionsOk(c) && ClaimArgsOk(c) && AllFine(BinStrict(ClaimKeys(c)), |ClaimKeys(c)|)
    ensures var keys := ClaimKeys(c);
            var fields := ClaimMain(c) + ClaimTail(c) + Groups(BinGroup(keys), |keys|);
            AllOk(fields) && ReadClaimRequest(BytesOf(fields))
            == Some(ClaimRequest(c.kind.bytes, PartitionBytes(c.state), c.worker.value.bytes, c.leaseMs.n, c.limit.n, Given(c.blockMs),
                                 c.reclaimExpired != Some(false), if c.reclaimRatio.Missing? then 25 else c.reclaimRatio.n,
                                 Given(c.priority), c.returnMode.value, NamedBy(c.partitions)))
  {
    var keys := ClaimKeys(c);
    hide ClaimMain, ClaimTail, ClaimOptionsOk, ClaimArgsOk, ClaimFrom, NamedIn, NamedBy, BinStrict, BinGroup, KeysOf, ReadClaimDue, Given;
    hide Encodable, OptEncodable, PartitionBytes, Mapped, Listed, GroupList, Groups, ReadRequest, BytesOf, AllOk;
    ClaimReadBack(c);
    KeysRead(keys, |keys|);
    NamesRead(c);
    ClaimMainRead(c, NamedBy(c.partitions));
  }

  lemma {:induction false} KeysRead(raw: seq<Arg>, n: nat)
    ensures Mapped(GroupList(BinGroup(raw), 0, n), KeyOf) == Listed(KeysOf(raw), n)
  {
    hide BytesAt, GroupList, Mapped, Listed;
    ItemsRead(BinGroup(raw), n, KeyOf, KeysOf(raw));
  }

  lemma {:induction false} NamesRead(c: Claim)
    ensures NamedIn(ClaimTail(c), Listed(KeysOf(ClaimKeys(c)), |ClaimKeys(c)|)) == NamedBy(c.partitions)
  {
    hide BytesAt, Listed;
  }

  lemma ClaimMainRead(c: Claim, partitions: Named)
    requires ClaimOptionsOk(c) && ClaimArgsOk(c)
    ensures ClaimFrom(ClaimMain(c), partitions)
            == Some(ClaimRequest(c.kind.bytes, PartitionBytes(c.state), c.worker.value.bytes, c.leaseMs.n, c.limit.n, Given(c.blockMs),
                                 c.reclaimExpired != Some(false), if c.reclaimRatio.Missing? then 25 else c.reclaimRatio.n,
                                 Given(c.priority), c.returnMode.value, partitions))
  {
  }

  // ----- Values -----

  function ReadValueMGet(s: seq<byte>): Option<(Option<int>, seq<seq<byte>>)> {
    match ReadRequest([KU8, KI64, KU32], [KBin], s)
    case None => None
    case Some(r) => ValuesFrom(r.0, Mapped(r.1, KeyOf))
  }

  function ValuesFrom(head: seq<Field>, refs: seq<seq<byte>>): Option<(Option<int>, seq<seq<byte>>)> {
    if NumberAt(head, 0) != 0x9d then None else Some((PresentAt(head, 1), refs))
  }

  lemma {:induction false} ValueMGetIsRead(refs: seq<Arg>, maxBytes: Number)
    requires MaxBytesOk(maxBytes) && |refs| <= MAX_U32 && AllFine(BinCheck(refs), |refs|)
    ensures var fields := ValueMGetFields(refs, maxBytes);
            AllOk(fields) && ReadValueMGet(BytesOf(fields)) == Some((Given(maxBytes), Listed(KeysOf(refs), |refs|)))
  {
    assert ValuesFrom(ValueMGetHead(maxBytes, |refs|), Listed(KeysOf(refs), |refs|)) == Some((Given(maxBytes), Listed(KeysOf(refs), |refs|)));
    hide ValueMGetHead, MaxBytesOk, BinCheck, BinGroup, KeysOf, ValuesFrom, Given;
    hide Encodable, OptEncodable, PartitionBytes, Mapped, Listed, GroupList, Groups, ReadRequest, BytesOf, AllOk;
    ValueMGetReadBack(refs, maxBytes);
    KeysRead(refs, |refs|);
  }

  // ----- Keys, pairs and pipelines -----

  /** The mode of a request and what it holds, each item under its own reader. */
  function ReadPipeline<T>(s: seq<byte>, kinds: seq<Kind>, read: seq<Field> -> T): Option<(nat, seq<T>)> {
    match ReadRequest(PIPELINE_HEAD, kinds, s)
    case None => None
    case Some(r) => PipelineFrom(r.0, Mapped(r.1, read))
  }

  function PipelineFrom<T>(head: seq<Field>, items: seq<T>): Option<(nat, seq<T>)> {
    if NumberAt(head, 0) != 0x94 then None else Some((NumberAt(head, 1), items))
  }

  lemma PipelineHeadRead<T>(mode: nat, count: nat, items: seq<T>)
    ensures PipelineFrom(PipelineHead(mode, count), items) == Some((mode, items))
  {
  }

  lemma {:induction false} KeyPipelineIsRead(mode: nat, args: seq<Arg>)
    requires mode < 256 && |args| <= MAX_U32 && AllFine(BinCheck(args), |args|)
    ensures var fields := KeyFields(mode, args);
            AllOk(fields) && ReadPipeline(BytesOf(fields), [KBin], KeyOf) == Some((mode, Listed(KeysOf(args), |args|)))
  {
    hide PipelineHead, PipelineFrom, BinCheck, BinGroup, KeysOf;
    hide Mapped, Listed, GroupList, Groups, ReadRequest, BytesOf, AllOk;
    KeyPipelineReadBack(mode, args);
    KeysRead(args, |args|);
    PipelineHeadRead(mode, |args|, Listed(KeysOf(args), |args|));
  }

  function PairOf(g: seq<Field>): (seq<byte>, seq<byte>) {
    (BinAt(g, 0), BinAt(g, 1))
  }

  function PairsOf(raw: seq<Arg>): nat -> (seq<byte>, seq<byte>) {
    (i: nat) => (BytesAt(raw, 2 * i), BytesAt(raw, 2 * i + 1))
  }

  lemma {:induction false} PairsRead(raw: seq<Arg>, n: nat)
    ensures Mapped(GroupList(PairGroup(raw), 0, n), PairOf) == Listed(PairsOf(raw), n)
  {
    hide BytesAt, GroupList, Mapped, Listed;
    ItemsRead(PairGroup(raw), n, PairOf, PairsOf(raw));
  }

  /** Every key is read with its own value. */
  lemma {:induction false} MsetIsRead(args: seq<Arg>)
    requires |args| <= MAX_U32 && |args| % 2 == 0 && AllFine(PairCheck(args), |args| / 2)
    ensures var count := |args| / 2;
            var fields := PipelineHead(1, count) + Groups(PairGroup(args), count);
            AllOk(fields) && ReadPipeline(BytesOf(fields), PAIR, PairOf) == Some((1, Listed(PairsOf(args), count)))
  {
    hide PipelineHead, PipelineFrom, PairCheck, PairGroup, PairsOf;
    hide Mapped, Listed, GroupList, Groups, ReadRequest, BytesOf, AllOk;
    var count := |args| / 2;
    MsetReadBack(args);
    PairsRead(args, count);
    PipelineHeadRead(1, count, Listed(PairsOf(args), count));
  }

  function ArgsOf(width: nat): seq<Field> -> seq<seq<byte>> {
    (g: seq<Field>) => if width == 1 then [BinAt(g, 0)] else [BinAt(g, 0), BinAt(g, 1)]
  }

  function ArgsOfCommand(commands: seq<Command>, width: nat): nat -> seq<seq<byte>> {
    (i: nat) =>
      var args := CommandAt(commands, i).args;
      if width == 1 then [BytesAt(args, 0)] else [BytesAt(args, 0), BytesAt(args, 1)]
  }

  lemma {:induction false} CommandsRead(commands: seq<Command>, width: nat, n: nat)
    ensures Mapped(GroupList(CommandGroup(commands, width), 0, n), ArgsOf(width)) == Listed(ArgsOfCommand(commands, width), n)
  {
    hide BytesAt, GroupList, Mapped, Listed;
    ItemsRead(CommandGroup(commands, width), n, ArgsOf(width), ArgsOfCommand(commands, width));
  }

  /** The arguments of every command of a pipeline, in order. */
  lemma {:induction false} UniformIsRead(commands: seq<Command>, name: Name, width: nat, mode: nat)
    requires (width == 1 || width == 2) && mode < 256 && |commands| <= MAX_U32
    requires AllFine(CommandCheck(commands, name, width), |commands|)
    ensures var n := |commands|;
            var fields := PipelineHead(mode, n) + Groups(CommandGroup(commands, width), n);
            AllOk(fields) && ReadPipeline(BytesOf(fields), CommandKinds(width), ArgsOf(width))
                             == Some((mode, Listed(ArgsOfCommand(commands, width), n)))
  {
    hide PipelineHead, PipelineFrom, CommandCheck, CommandGroup, ArgsOf, ArgsOfCommand, CommandKinds;
    hide Mapped, Listed, GroupList, Groups, ReadRequest, BytesOf, AllOk;
    var n := |commands|;
    UniformReadBack(commands, name, width, mode);
    CommandsRead(commands, width, n);
    PipelineHeadRead(mode, n, Listed(ArgsOfCommand(commands, width), n));
  }

  /** A stream entry: its key, then names and values in turn. */
  datatype StreamEntry = StreamEntry(key: seq<byte>, pairs: seq<seq<byte>>)

  function BinsFrom(g: seq<Field>, at: nat): (r: seq<seq<byte>>)
    ensures |r| == (if |g| < at then 0 else |g| - at) && forall i | 0 <= i < |r| :: r[i] == BinAt(g, at + i)
  {
    if |g| < at then [] else seq(|g| - at, i requires 0 <= i < |g| - at => BinAt(g, at + i))
  }

  function StreamEntryOf(g: seq<Field>): StreamEntry {
    StreamEntry(BinAt(g, 0), BinsFrom(g, 2))
  }

  /** The key, and the arguments after the `*`. */
  function StreamEntriesOf(commands: seq<Command>): nat -> StreamEntry {
    (i: nat) =>
      var args := CommandAt(commands, i).args;
      StreamEntry(BytesAt(args, 0), BytesFrom(args, 2))
  }

  function BytesFrom(args: seq<Arg>, at: nat): (r: seq<seq<byte>>)
    ensures |r| == (if |args| < at then 0 else |args| - at) && forall k | 0 <= k < |r| :: r[k] == BytesAt(args, at + k)
  {
    if |args| < at then [] else seq(|args| - at, k requires 0 <= k < |args| - at => BytesAt(args, at + k))
  }

  function ReadStreamEntries(s: seq<byte>): Option<(nat, seq<StreamEntry>)> {
    match ReadXAddPipeline(s)
    case None => None
    case Some(r) => PipelineFrom(r.0, Mapped(r.1, StreamEntryOf))
  }

  lemma {:induction false} StreamEntryRead(commands: seq<Command>, i: nat)
    requires XAddCheck(commands)(i).Fine?
    ensures StreamEntryOf(XAddGroup(commands)(i)) == StreamEntriesOf(commands)(i)
  {
    var args, g := CommandAt(commands, i).args, XAddFields(commands, i);
    var read, given := BinsFrom(g, 2), BytesFrom(args, 2);
    forall k | 0 <= k < |read|
      ensures read[k] == given[k]
    {
      assert g[2 + k] == BinList(args[2..])[k] == Bin(BytesAt(args[2..], k));
    }
  }

  lemma {:induction false} StreamEntriesRead(commands: seq<Command>, n: nat)
    requires AllFine(XAddCheck(commands), n)
    ensures Mapped(GroupList(XAddGroup(commands), 0, n), StreamEntryOf) == Listed(StreamEntriesOf(commands), n)
  {
    hide GroupList, Mapped, Listed, XAddGroup, StreamEntryOf, StreamEntriesOf, XAddCheck;
    forall i: nat | i < n
      ensures StreamEntryOf(XAddGroup(commands)(i)) == StreamEntriesOf(commands)(i)
    {
      StreamEntryRead(commands, i);
    }
    ItemsRead(XAddGroup(commands), n, StreamEntryOf, StreamEntriesOf(commands));
  }

  /** Every stream entry is read with its key and all its names and values, however many. */
  lemma {:induction false} XAddIsRead(commands: seq<Command>)
    requires |commands| <= MAX_U32 && AllFine(XAddCheck(commands), |commands|)
    ensures var n := |commands|;
            var fields := PipelineHead(XADD_MODE, n) + Groups(XAddGroup(commands), n);
            AllOk(fields) && ReadStreamEntries(BytesOf(fields)) == Some((XADD_MODE, Listed(StreamEntriesOf(commands), n)))
  {
    hide PipelineHead, PipelineFrom, XAddCheck, XAddGroup, StreamEntriesOf, StreamEntryOf, ReadXAddPipeline;
    hide Mapped, Listed, GroupList, Groups, BytesOf, AllOk;
    var n := |commands|;
    XAddReadBack(commands);
    StreamEntriesRead(commands, n);
    PipelineHeadRead(XADD_MODE, n, Listed(StreamEntriesOf(commands), n));
  }
}
