/** The compact encoders that claim due flows and fetch several values. */
module CompactFlowSingle {
  import opened Wrappers
  import opened Bytes
  import opened CompactFields
  import opened CompactPlan
  import opened CompactFlow

  /** One argument for each item. */
  function BinFields(raw: seq<Arg>, i: nat): seq<Field> {
    [Bin(BytesAt(raw, i))]
  }

  function BinGroup(raw: seq<Arg>): nat -> seq<Field> {
    (i: nat) => BinFields(raw, i)
  }

  function BinPlan(raw: seq<Arg>): nat -> nat {
    (i: nat) => 4 + |BytesAt(raw, i)|
  }

  function BinEarly(raw: seq<Arg>): nat -> Verdict {
    (i: nat) => if At(raw, i).Other? then Ineligible else Fine
  }

  function BinCheck(raw: seq<Arg>): nat -> Verdict {
    (i: nat) => if At(raw, i).Other? then Ineligible else if !IsShort(At(raw, i)) then Faulty else Fine
  }

  /** Where an argument without a compact form is an error. */
  function BinStrict(raw: seq<Arg>): nat -> Verdict {
    (i: nat) => if Encodable(At(raw, i)) then Fine else Faulty
  }

  lemma {:induction false} BinItem(raw: seq<Arg>, i: nat)
    ensures Size(BinFields(raw, i)) == BinPlan(raw)(i) >= 4
    ensures Encodable(At(raw, i)) ==> AllOk(BinFields(raw, i))
    ensures KindsOf(BinFields(raw, i)) == [KBin]
  {
    SizeOfShort(BinFields(raw, i));
  }

  lemma {:induction false} BinsExact(raw: seq<Arg>, check: nat -> Verdict, n: nat, headFine: bool, head: seq<Field>, headPlan: nat, base: nat)
    requires check == BinCheck(raw) || check == BinStrict(raw)
    requires (headFine ==> AllOk(head)) && headPlan == Size(head) >= base
    ensures PlanIsExact(headFine, head, headPlan, BinGroup(raw), BinPlan(raw), check, n)
    ensures base + n * 4 <= Size(head) + Size(Groups(BinGroup(raw), n))
  {
    hide AllOk, Size;
    forall i: nat | i < n
      ensures ItemExact(BinGroup(raw), BinPlan(raw), check, 4, i)
    {
      BinItem(raw, i);
    }
    ExactItemByItem(headFine, head, headPlan, BinGroup(raw), BinPlan(raw), check, n, base, 4);
  }

  // ----- FLOW.VALUE_MGET -----

  function ValueMGetHead(maxBytes: Number, count: nat): seq<Field> {
    [U8(0x9d), I64(OptionalI64(maxBytes)), U32(count)]
  }

  predicate MaxBytesOk(maxBytes: Number) {
    maxBytes.Missing? || IsTime(maxBytes)
  }

  lemma {:induction false} ValueMGetHeadExact(maxBytes: Number, count: nat)
    requires MaxBytesOk(maxBytes) && count <= MAX_U32
    ensures var head := ValueMGetHead(maxBytes, count); Size(head) == 13 && AllOk(head) && KindsOf(head) == [KU8, KI64, KU32]
  {
    SizeOfShort(ValueMGetHead(maxBytes, count));
  }

  function ValueMGetFields(refs: seq<Arg>, maxBytes: Number): seq<Field> {
    ValueMGetHead(maxBytes, |refs|) + Groups(BinGroup(refs), |refs|)
  }

  method ValueMGet(refs: seq<Arg>, maxBytes: Number, maxBodyBytes: nat) returns (r: Outcome)
    ensures var fields := ValueMGetFields(refs, maxBytes);
            && (r.Encoded? <==> MaxBytesOk(maxBytes) && |refs| <= MAX_U32 && AllFine(BinCheck(refs), |refs|)
                                && Size(fields) <= maxBodyBytes)
            && (r.Encoded? ==> AllOk(fields) && r.payload == BytesOf(fields))
            && (r.TooLarge? ==> Size(fields) > maxBodyBytes)
            && (r.NotCompact? <==> !(MaxBytesOk(maxBytes) && |refs| <= MAX_U32) || Refused(true, BinEarly(refs), BinCheck(refs), 13 + |refs| * 4 > maxBodyBytes, |refs|, Ineligible))
            && (r.BadArgument? <==> MaxBytesOk(maxBytes) && |refs| <= MAX_U32 && Refused(true, BinEarly(refs), BinCheck(refs), 13 + |refs| * 4 > maxBodyBytes, |refs|, Faulty))
  {
    if |refs| > MAX_U32 || !MaxBytesOk(maxBytes) { return NotCompact; }
    var head := ValueMGetHead(maxBytes, |refs|);
    ValueMGetHeadExact(maxBytes, |refs|);
    hide ValueMGetHead, AllOk, FieldOk, Size, Refused, MaxBytesOk;
    BinsExact(refs, BinCheck(refs), |refs|, true, head, 13, 13);
    r := EncodeRequest(true, head, 1 + 8 + 4, BinGroup(refs), BinPlan(refs), BinEarly(refs), BinCheck(refs), 13 + |refs| * 4, |refs|,
                       maxBodyBytes);
  }

  lemma {:induction false} BinsReadBack(head: seq<Field>, raw: seq<Arg>, n: nat)
    requires AllOk(head) && head != [] && head[|head| - 1] == U32(n) && forall i: nat | i < n :: Encodable(At(raw, i))
    ensures AllOk(head + Groups(BinGroup(raw), n))
    ensures ReadRequest(KindsOf(head), [KBin], BytesOf(head + Groups(BinGroup(raw), n))) == Some((head, GroupList(BinGroup(raw), 0, n)))
  {
    forall i: nat | i < n
      ensures AllOk(BinGroup(raw)(i)) && KindsOf(BinGroup(raw)(i)) == [KBin]
    {
      BinItem(raw, i);
    }
    hide AllOk, Size;
    RequestRoundTrip(head, [KBin], BinGroup(raw), n);
  }

  /** The limit and every reference are read back. */
  lemma {:induction false} ValueMGetReadBack(refs: seq<Arg>, maxBytes: Number)
    requires MaxBytesOk(maxBytes) && |refs| <= MAX_U32 && AllFine(BinCheck(refs), |refs|)
    ensures var head := ValueMGetHead(maxBytes, |refs|);
            var fields := ValueMGetFields(refs, maxBytes);
            AllOk(fields) && ReadRequest([KU8, KI64, KU32], [KBin], BytesOf(fields)) == Some((head, GroupList(BinGroup(refs), 0, |refs|)))
  {
    ValueMGetHeadExact(maxBytes, |refs|);
    forall i: nat | i < |refs|
      ensures Encodable(At(refs, i))
    {
      assert BinCheck(refs)(i).Fine?;
    }
    BinsReadBack(ValueMGetHead(maxBytes, |refs|), refs, |refs|);
  }

  // ----- FLOW.CLAIM_DUE -----

  /** The options of a claim; `returnMode` is one of the four compact ones, if any. */
  datatype Claim = Claim(unsupported: bool, kind: Arg, state: Option<Arg>, worker: Option<Arg>, leaseMs: Number, limit: Number,
                         blockMs: Number, reclaimExpired: Option<bool>, reclaimRatio: Number, priority: Number,
                         returnMode: Option<nat>, partitions: Partitions)

  datatype Partitions = Any | One(key: Arg) | Several(keys: seq<Arg>)

  predicate IsOptional(v: Number) {
    v.Missing? || IsSafe(v)
  }

  function Ratio(v: Number): Number {
    if v.Missing? then Safe(25) else v
  }

  predicate ClaimOptionsOk(c: Claim) {
    && !c.unsupported && c.worker.Some? && IsSafe(c.leaseMs) && IsSafe(c.limit) && IsOptional(c.blockMs)
    && IsSafe(Ratio(c.reclaimRatio)) && IsOptional(c.priority)
    && c.returnMode.Some? && 1 <= c.returnMode.value <= 4
    && (c.partitions.Several? ==> |c.partitions.keys| <= MAX_U32)
  }

  predicate ClaimArgsOk(c: Claim) {
    && Encodable(c.kind) && OptEncodable(c.state) && OptEncodable(c.worker)
    && (c.partitions.One? ==> Encodable(c.partitions.key))
  }

  function OptBytes(a: Option<Arg>): Option<seq<byte>> {
    if a.Some? then Some(BytesAt([a.value], 0)) else None
  }

  function ClaimMain(c: Claim): seq<Field> {
    [U8(0x91), Bin(BytesAt([c.kind], 0)), Opt(OptBytes(c.state)), Bin(if c.worker.Some? then BytesAt([c.worker.value], 0) else []),
     I64(Clamped(c.leaseMs)), I64(Clamped(c.limit)), I64(OptionalI64(c.blockMs)), U8(if c.reclaimExpired == Some(false) then 0 else 1),
     I64(Clamped(Ratio(c.reclaimRatio))), I64(OptionalI64(c.priority)), U8(if c.returnMode.Some? then c.returnMode.value else 0)]
  }

  /** The last part says how many partitions are meant. */
  function ClaimTail(c: Claim): seq<Field> {
    match c.partitions
    case Any => [U8(0)]
    case One(key) => [U8(1), Bin(BytesAt([key], 0))]
    case Several(keys) => [U8(2), U32(|keys|)]
  }

  function ClaimKeys(c: Claim): seq<Arg> {
    if c.partitions.Several? then c.partitions.keys else []
  }

  const CLAIM_MAIN := [KU8, KBin, KOpt, KBin, KI64, KI64, KI64, KU8, KI64, KI64, KU8]

  function ClaimPlan(c: Claim): nat {
    1 + 4 + |BytesAt([c.kind], 0)| + 4 + OptLength(OptBytes(c.state))
    + 4 + (if c.worker.Some? then |BytesAt([c.worker.value], 0)| else 0) + 8 + 8 + 8 + 1 + 8 + 8 + 1
    + match c.partitions case Any => 1 case One(key) => 1 + 4 + |BytesAt([key], 0)| case Several(_) => 5
  }

  lemma {:induction false} ClaimMainExact(c: Claim)
    requires ClaimOptionsOk(c)
    ensures KindsOf(ClaimMain(c)) == CLAIM_MAIN && (ClaimArgsOk(c) ==> AllOk(ClaimMain(c)))
    ensures Size(ClaimMain(c)) == 1 + 4 + |BytesAt([c.kind], 0)| + 4 + OptLength(OptBytes(c.state))
                                  + 4 + (if c.worker.Some? then |BytesAt([c.worker.value], 0)| else 0) + 8 + 8 + 8 + 1 + 8 + 8 + 1
  {
    SizeOfShort(ClaimMain(c));
  }

  lemma {:induction false} ClaimTailExact(c: Claim)
    requires ClaimOptionsOk(c)
    ensures ClaimArgsOk(c) ==> AllOk(ClaimTail(c))
    ensures Size(ClaimTail(c)) == match c.partitions case Any => 1 case One(key) => 1 + 4 + |BytesAt([key], 0)| case Several(_) => 5
  {
    SizeOfShort(ClaimTail(c));
  }

  lemma {:induction false} ClaimHeadExact(c: Claim)
    requires ClaimOptionsOk(c)
    ensures Size(ClaimMain(c) + ClaimTail(c)) == ClaimPlan(c)
    ensures ClaimArgsOk(c) ==> AllOk(ClaimMain(c) + ClaimTail(c))
  {
    ClaimMainExact(c);
    ClaimTailExact(c);
    hide ClaimMain, ClaimTail, ClaimArgsOk, ClaimOptionsOk, FieldOk, Size;
    SizeConcat(ClaimMain(c), ClaimTail(c));
    if ClaimArgsOk(c) { OkConcat(ClaimMain(c), ClaimTail(c)); }
  }

  method ClaimDue(c: Claim, maxBodyBytes: nat) returns (r: Outcome)
    ensures var keys := ClaimKeys(c);
            var fields := ClaimMain(c) + ClaimTail(c) + Groups(BinGroup(keys), |keys|);
            && (r.Encoded? <==> ClaimOptionsOk(c) && ClaimArgsOk(c) && AllFine(BinStrict(keys), |keys|) && Size(fields) <= maxBodyBytes)
            && (r.Encoded? ==> AllOk(fields) && r.payload == BytesOf(fields))
            && (r.TooLarge? ==> Size(fields) > maxBodyBytes)
            && (r.NotCompact? <==> !ClaimOptionsOk(c) || Refused(ClaimArgsOk(c), BinStrict(keys), BinStrict(keys), false, |keys|, Ineligible))
            && (r.BadArgument? <==> ClaimOptionsOk(c) && Refused(ClaimArgsOk(c), BinStrict(keys), BinStrict(keys), false, |keys|, Faulty))
  {
    if !ClaimOptionsOk(c) { return NotCompact; }
    var keys, head := ClaimKeys(c), ClaimMain(c) + ClaimTail(c);
    ClaimHeadExact(c);
    hide ClaimMain, ClaimTail, ClaimArgsOk, ClaimOptionsOk, FieldOk, AllOk, Size, Refused, ClaimPlan;
    BinsExact(keys, BinStrict(keys), |keys|, ClaimArgsOk(c), head, ClaimPlan(c), 0);
    r := EncodeRequest(ClaimArgsOk(c), head, ClaimPlan(c), BinGroup(keys), BinPlan(keys), BinStrict(keys), BinStrict(keys), 0, |keys|,
                       maxBodyBytes);
  }

  /** A claim read back: its main part, and the partitions it names. */
  datatype ReadClaim = ReadClaim(main: seq<Field>, tail: seq<Field>, keys: seq<seq<Field>>)

  function ReadClaimDue(s: seq<byte>): Option<ReadClaim> {
    match ReadFields(CLAIM_MAIN, s)
    case None => None
    case Some(main) =>
      match ReadPartitions(main.1)
      case None => None
      case Some(rest) => Some(ReadClaim(main.0, rest.0, rest.1))
  }

  function ReadPartitions(s: seq<byte>): Option<(seq<Field>, seq<seq<Field>>)> {
    match ReadField(KU8, s)
    case None => None
    case Some(form) =>
      if form.0 == U8(0) then (if form.1 == [] then Some(([form.0], [])) else None)
      else if form.0 == U8(1) then
        match ReadField(KBin, form.1)
        case None => None
        case Some(key) => if key.1 == [] then Some(([form.0, key.0], [])) else None
      else
        match ReadRequest([KU32], [KBin], form.1)
        case None => None
        case Some(several) => Some(([form.0] + several.0, several.1))
  }

  /** Everything in an encoded claim is read back, whatever partitions it names. */
  lemma {:induction false} ClaimReadBack(c: Claim)
    requires ClaimOptionsOk(c) && ClaimArgsOk(c) && AllFine(BinStrict(ClaimKeys(c)), |ClaimKeys(c)|)
    ensures var keys := ClaimKeys(c);
            var fields := ClaimMain(c) + ClaimTail(c) + Groups(BinGroup(keys), |keys|);
            AllOk(fields) && ReadClaimDue(BytesOf(fields)) == Some(ReadClaim(ClaimMain(c), ClaimTail(c), GroupList(BinGroup(keys), 0, |keys|)))
  {
    var keys := ClaimKeys(c);
    var rest := ClaimTail(c) + Groups(BinGroup(keys), |keys|);
    ClaimMainExact(c);
    PartitionsReadBack(c);
    hide ClaimMain, ClaimTail, ClaimArgsOk, ClaimOptionsOk, FieldOk, BytesOf, ReadPartitions, ReadFields, AllFine, Groups;
    Associative(ClaimMain(c), ClaimTail(c), Groups(BinGroup(keys), |keys|));
    BytesConcat(ClaimMain(c), rest);
    FieldsRoundTrip(ClaimMain(c), BytesOf(rest));
  }

  lemma {:induction false} PartitionsReadBack(c: Claim)
    requires ClaimOptionsOk(c) && ClaimArgsOk(c) && AllFine(BinStrict(ClaimKeys(c)), |ClaimKeys(c)|)
    ensures var keys := ClaimKeys(c);
            var rest := ClaimTail(c) + Groups(BinGroup(keys), |keys|);
            AllOk(rest) && ReadPartitions(BytesOf(rest)) == Some((ClaimTail(c), GroupList(BinGroup(keys), 0, |keys|)))
  {
    match c.partitions {
      case Any => AnyReadBack();
      case One(key) => OneReadBack(BytesAt([key], 0));
      case Several(keys) =>
        forall i: nat | i < |keys|
          ensures Encodable(At(keys, i))
        {
          assert BinStrict(keys)(i).Fine?;
        }
        SeveralReadBack(keys);
    }
  }

  lemma {:induction false} AnyReadBack()
    ensures ReadPartitions(BytesOf([U8(0)] + [])) == Some(([U8(0)], []))
  {
    assert [U8(0)] + [] == [U8(0)];
    BytesOfOne(U8(0));
    FieldRoundTrip(U8(0), []);
    assert FieldBytes(U8(0)) + [] == FieldBytes(U8(0));
  }

  lemma {:induction false} OneReadBack(key: seq<byte>)
    requires |key| < NULL_U32
    ensures AllOk([U8(1), Bin(key)] + []) && ReadPartitions(BytesOf([U8(1), Bin(key)] + [])) == Some(([U8(1), Bin(key)], []))
  {
    var form, last := U8(1), Bin(key);
    assert [form, last] + [] == [form] + [last];
    BytesConcat([form], [last]);
    BytesOfOne(form);
    BytesOfOne(last);
    FieldRoundTrip(form, FieldBytes(last));
    FieldRoundTrip(last, []);
    hide FieldBytes, ReadField;
    assert FieldBytes(last) + [] == FieldBytes(last);
  }

  lemma {:induction false} SeveralReadBack(keys: seq<Arg>)
    requires |keys| <= MAX_U32 && forall i: nat | i < |keys| :: Encodable(At(keys, i))
    ensures var rest := [U8(2), U32(|keys|)] + Groups(BinGroup(keys), |keys|);
            AllOk(rest) && ReadPartitions(BytesOf(rest)) == Some(([U8(2), U32(|keys|)], GroupList(BinGroup(keys), 0, |keys|)))
  {
    var form, count := U8(2), U32(|keys|);
    CountAlone(|keys|);
    hide FieldOk, KindOf, KindsOf, FieldBytes, ReadField, ReadRequest, BytesOf, Groups, Encodable, ReadPartitions, GroupList, AllOk;
    var groups := Groups(BinGroup(keys), |keys|);
    BinsReadBack([count], keys, |keys|);
    FormFirst(form, count, groups);
    FieldRoundTrip(form, BytesOf([count] + groups));
    SeveralForm(BytesOf([form, count] + groups), BytesOf([count] + groups), [count], GroupList(BinGroup(keys), 0, |keys|));
  }

  lemma CountAlone(n: nat)
    requires n <= MAX_U32
    ensures KindsOf([U32(n)]) == [KU32] && AllOk([U32(n)]) && [U8(2)] + [U32(n)] == [U8(2), U32(n)]
    ensures FieldOk(U8(2)) && KindOf(U8(2)) == KU8
  {
  }

  lemma {:induction false} SeveralForm(s: seq<byte>, later: seq<byte>, count: seq<Field>, groups: seq<seq<Field>>)
    requires ReadField(KU8, s) == Some((U8(2), later)) && ReadRequest([KU32], [KBin], later) == Some((count, groups))
    ensures ReadPartitions(s) == Some(([U8(2)] + count, groups))
  {
    hide ReadField, ReadRequest;
  }

  lemma {:induction false} FormFirst(form: Field, count: Field, groups: seq<Field>)
    requires FieldOk(form) && AllOk([count] + groups)
    ensures AllOk([form, count] + groups)
    ensures BytesOf([form, count] + groups) == FieldBytes(form) + BytesOf([count] + groups)
  {
    hide FieldOk, FieldBytes;
    assert [form, count] + groups == [form] + ([count] + groups);
    BytesOfOne(form);
    BytesConcat([form], [count] + groups);
  }
}
