/** The compact encoders of key-value commands and of pipelines made of one kind of command. */
module CompactRequest {
  import opened Wrappers
  import opened Bytes
  import opened CompactFields
  import opened CompactPlan
  import opened CompactFlow
  import opened CompactFlowSingle

  const PIPELINE_REQUEST := 0x94
  const GET_MODE := 0x80 + 2
  const SET_MODE := 0x80 + 1
  const XADD_MODE := 0x80 + 34
  const PUBLISH_MODE := 0x80 + 35

  /** The bytes of "*". */
  const STAR: seq<byte> := [0x2a]

  function PipelineHead(mode: nat, count: nat): seq<Field> {
    [U8(PIPELINE_REQUEST), U8(mode), U32(count)]
  }

  const PIPELINE_HEAD := [KU8, KU8, KU32]

  lemma {:induction false} PipelineHeadExact(mode: nat, count: nat)
    requires mode < 256 && count <= MAX_U32
    ensures Size(PipelineHead(mode, count)) == 6 && AllOk(PipelineHead(mode, count)) && KindsOf(PipelineHead(mode, count)) == PIPELINE_HEAD
  {
    SizeOfShort(PipelineHead(mode, count));
  }

  // ----- Lists of keys -----

  function KeyFields(mode: nat, args: seq<Arg>): seq<Field> {
    PipelineHead(mode, |args|) + Groups(BinGroup(args), |args|)
  }

  method KeyPipeline(mode: nat, args: seq<Arg>, maxBodyBytes: nat) returns (r: Outcome)
    requires mode < 256 && |args| <= MAX_U32
    ensures var fields := KeyFields(mode, args);
            && (r.Encoded? <==> AllFine(BinCheck(args), |args|) && Size(fields) <= maxBodyBytes)
            && (r.Encoded? ==> AllOk(fields) && r.payload == BytesOf(fields))
            && (r.TooLarge? ==> Size(fields) > maxBodyBytes)
            && (r.NotCompact? <==> Refused(true, BinEarly(args), BinCheck(args), 6 + |args| * 4 > maxBodyBytes, |args|, Ineligible))
            && (r.BadArgument? <==> Refused(true, BinEarly(args), BinCheck(args), 6 + |args| * 4 > maxBodyBytes, |args|, Faulty))
  {
    PipelineHeadExact(mode, |args|);
    hide PipelineHead, AllOk, FieldOk, Size, Refused;
    BinsExact(args, BinCheck(args), |args|, true, PipelineHead(mode, |args|), 6, 6);
    r := EncodeRequest(true, PipelineHead(mode, |args|), 6, BinGroup(args), BinPlan(args), BinEarly(args), BinCheck(args),
                       6 + |args| * 4, |args|, maxBodyBytes);
  }

  /** The mode and every key are read back. */
  lemma {:induction false} KeyPipelineReadBack(mode: nat, args: seq<Arg>)
    requires mode < 256 && |args| <= MAX_U32 && AllFine(BinCheck(args), |args|)
    ensures var head := PipelineHead(mode, |args|);
            var fields := KeyFields(mode, args);
            AllOk(fields) && ReadRequest(PIPELINE_HEAD, [KBin], BytesOf(fields)) == Some((head, GroupList(BinGroup(args), 0, |args|)))
  {
    PipelineHeadExact(mode, |args|);
    forall i: nat | i < |args|
      ensures Encodable(At(args, i))
    {
      assert BinCheck(args)(i).Fine?;
    }
    BinsReadBack(PipelineHead(mode, |args|), args, |args|);
  }

  // ----- Groups of a fixed number of arguments -----

  /** The arguments `at` and after it, one field each. */
  function PairFields(raw: seq<Arg>, i: nat): seq<Field> {
    [Bin(BytesAt(raw, 2 * i)), Bin(BytesAt(raw, 2 * i + 1))]
  }

  function PairGroup(raw: seq<Arg>): nat -> seq<Field> {
    (i: nat) => PairFields(raw, i)
  }

  function PairPlan(raw: seq<Arg>): nat -> nat {
    (i: nat) => 4 + |BytesAt(raw, 2 * i)| + (4 + |BytesAt(raw, 2 * i + 1)|)
  }

  function PairEarly(raw: seq<Arg>): nat -> Verdict {
    (i: nat) => if At(raw, 2 * i).Other? || At(raw, 2 * i + 1).Other? then Ineligible else Fine
  }

  /** The arguments are checked one by one. */
  function PairCheck(raw: seq<Arg>): nat -> Verdict {
    (i: nat) => if !BinCheck(raw)(2 * i).Fine? then BinCheck(raw)(2 * i) else BinCheck(raw)(2 * i + 1)
  }

  const PAIR := [KBin, KBin]

  lemma {:induction false} PairItem(raw: seq<Arg>, i: nat)
    ensures Size(PairFields(raw, i)) == PairPlan(raw)(i) >= 8
    ensures PairCheck(raw)(i).Fine? ==> AllOk(PairFields(raw, i))
    ensures KindsOf(PairFields(raw, i)) == PAIR
  {
    SizeOfShort(PairFields(raw, i));
    if PairCheck(raw)(i).Fine? {
      assert BinCheck(raw)(2 * i).Fine? && BinCheck(raw)(2 * i + 1).Fine?;
      assert Encodable(At(raw, 2 * i)) && Encodable(At(raw, 2 * i + 1));
    }
  }

  /** Keys and values alternate; an odd number of arguments is an error. */
  method Mset(args: seq<Arg>, maxBodyBytes: nat) returns (r: Outcome)
    requires |args| <= MAX_U32
    ensures var fields := PipelineHead(1, |args| / 2) + Groups(PairGroup(args), |args| / 2);
            && (r.Encoded? <==> |args| % 2 == 0 && AllFine(PairCheck(args), |args| / 2) && Size(fields) <= maxBodyBytes)
            && (r.Encoded? ==> AllOk(fields) && r.payload == BytesOf(fields))
            && (r.TooLarge? ==> Size(fields) > maxBodyBytes)
            && (r.NotCompact? <==> |args| % 2 == 0 && Refused(true, PairEarly(args), PairCheck(args), 6 + |args| * 4 > maxBodyBytes, |args| / 2, Ineligible))
            && (r.BadArgument? <==> |args| % 2 != 0 || Refused(true, PairEarly(args), PairCheck(args), 6 + |args| * 4 > maxBodyBytes, |args| / 2, Faulty))
  {
    if |args| % 2 != 0 { return BadArgument; }
    var count := |args| / 2;
    var head := PipelineHead(1, count);
    PipelineHeadExact(1, count);
    hide PipelineHead, AllOk, FieldOk, Size, Refused;
    forall i: nat | i < count
      ensures ItemExact(PairGroup(args), PairPlan(args), PairCheck(args), 8, i)
    {
      PairItem(args, i);
    }
    ExactItemByItem(true, head, 6, PairGroup(args), PairPlan(args), PairCheck(args), count, 6, 8);
    r := EncodeRequest(true, head, 6, PairGroup(args), PairPlan(args), PairEarly(args), PairCheck(args), 6 + |args| * 4, count, maxBodyBytes);
  }

  lemma {:induction false} MsetReadBack(args: seq<Arg>)
    requires |args| <= MAX_U32 && |args| % 2 == 0 && AllFine(PairCheck(args), |args| / 2)
    ensures var count := |args| / 2;
            var fields := PipelineHead(1, count) + Groups(PairGroup(args), count);
            AllOk(fields) && ReadRequest(PIPELINE_HEAD, PAIR, BytesOf(fields))
                             == Some((PipelineHead(1, count), GroupList(PairGroup(args), 0, count)))
  {
    var count := |args| / 2;
    PipelineHeadExact(1, count);
    forall i: nat | i < count
      ensures AllOk(PairGroup(args)(i)) && KindsOf(PairGroup(args)(i)) == PAIR
    {
      PairItem(args, i);
    }
    hide AllOk, Size;
    RequestRoundTrip(PipelineHead(1, count), PAIR, PairGroup(args), count);
  }

  // ----- Pipelines -----

  datatype Name = SET | GET | XADD | PUBLISH | Another

  /** One command of a pipeline: its name and what follows. */
  datatype Command = Command(name: Name, args: seq<Arg>)

  function CommandAt(commands: seq<Command>, i: nat): Command {
    if i < |commands| then commands[i] else Command(Another, [])
  }

  function CommandFields(commands: seq<Command>, width: nat, i: nat): seq<Field> {
    var args := CommandAt(commands, i).args;
    if width == 1 then [Bin(BytesAt(args, 0))] else [Bin(BytesAt(args, 0)), Bin(BytesAt(args, 1))]
  }

  function CommandGroup(commands: seq<Command>, width: nat): nat -> seq<Field> {
    (i: nat) => CommandFields(commands, width, i)
  }

  function CommandPlan(commands: seq<Command>, width: nat): nat -> nat {
    (i: nat) =>
      var args := CommandAt(commands, i).args;
      if width == 1 then 4 + |BytesAt(args, 0)| else 8 + |BytesAt(args, 0)| + |BytesAt(args, 1)|
  }

  /** The command has this name and this many scalar arguments. */
  predicate IsCommand(c: Command, name: Name, width: nat) {
    |c.args| == width && c.name == name && forall i | 0 <= i < width :: c.args[i].Scalar?
  }

  function CommandEarly(commands: seq<Command>, name: Name, width: nat): nat -> Verdict {
    (i: nat) => if IsCommand(CommandAt(commands, i), name, width) then Fine else Ineligible
  }

  function CommandCheck(commands: seq<Command>, name: Name, width: nat): nat -> Verdict {
    (i: nat) =>
      var c := CommandAt(commands, i);
      if !IsCommand(c, name, width) then Ineligible
      else if !IsShort(At(c.args, 0)) || (width > 1 && !IsShort(At(c.args, 1))) then Faulty
      else Fine
  }

  function CommandKinds(width: nat): seq<Kind> {
    if width == 1 then [KBin] else [KBin, KBin]
  }

  lemma {:induction false} CommandItem(commands: seq<Command>, name: Name, width: nat, i: nat)
    requires width == 1 || width == 2
    ensures Size(CommandFields(commands, width, i)) == CommandPlan(commands, width)(i) >= width * 4
    ensures CommandCheck(commands, name, width)(i).Fine? ==> AllOk(CommandFields(commands, width, i))
    ensures KindsOf(CommandFields(commands, width, i)) == CommandKinds(width)
  {
    SizeOfShort(CommandFields(commands, width, i));
  }

  /** A pipeline of commands that all have the same name and one or two arguments. */
  method UniformPipeline(commands: seq<Command>, name: Name, width: nat, mode: nat, maxBodyBytes: nat) returns (r: Outcome)
    requires (width == 1 || width == 2) && mode < 256 && |commands| <= MAX_U32
    ensures var n := |commands|;
            var fields := PipelineHead(mode, n) + Groups(CommandGroup(commands, width), n);
            && (r.Encoded? <==> AllFine(CommandCheck(commands, name, width), n) && Size(fields) <= maxBodyBytes)
            && (r.Encoded? ==> AllOk(fields) && r.payload == BytesOf(fields))
            && (r.TooLarge? ==> Size(fields) > maxBodyBytes)
            && (r.NotCompact? <==> Refused(true, CommandEarly(commands, name, width), CommandCheck(commands, name, width),
                                              6 + n * (width * 4) > maxBodyBytes, n, Ineligible))
            && (r.BadArgument? <==> Refused(true, CommandEarly(commands, name, width), CommandCheck(commands, name, width),
                                              6 + n * (width * 4) > maxBodyBytes, n, Faulty))
  {
    var n := |commands|;
    var head, group, plan := PipelineHead(mode, n), CommandGroup(commands, width), CommandPlan(commands, width);
    var check := CommandCheck(commands, name, width);
    PipelineHeadExact(mode, n);
    hide PipelineHead, AllOk, FieldOk, Size, Refused;
    forall i: nat | i < n
      ensures ItemExact(group, plan, check, width * 4, i)
    {
      CommandItem(commands, name, width, i);
    }
    ExactItemByItem(true, head, 6, group, plan, check, n, 6, width * 4);
    r := EncodeRequest(true, head, 6, group, plan, CommandEarly(commands, name, width), check, 6 + n * (width * 4), n, maxBodyBytes);
  }

  /** The mode, the number of commands and all their arguments are read back. */
  lemma {:induction false} UniformReadBack(commands: seq<Command>, name: Name, width: nat, mode: nat)
    requires (width == 1 || width == 2) && mode < 256 && |commands| <= MAX_U32
    requires AllFine(CommandCheck(commands, name, width), |commands|)
    ensures var n := |commands|;
            var fields := PipelineHead(mode, n) + Groups(CommandGroup(commands, width), n);
            AllOk(fields) && ReadRequest(PIPELINE_HEAD, CommandKinds(width), BytesOf(fields))
                             == Some((PipelineHead(mode, n), GroupList(CommandGroup(commands, width), 0, n)))
  {
    var n := |commands|;
    PipelineHeadExact(mode, n);
    forall i: nat | i < n
      ensures AllOk(CommandGroup(commands, width)(i)) && KindsOf(CommandGroup(commands, width)(i)) == CommandKinds(width)
    {
      CommandItem(commands, name, width, i);
    }
    hide AllOk, Size, CommandKinds;
    RequestRoundTrip(PipelineHead(mode, n), CommandKinds(width), CommandGroup(commands, width), n);
  }

  // ----- XADD -----

  function BinList(args: seq<Arg>): (fields: seq<Field>)
    ensures |fields| == |args| && forall i | 0 <= i < |args| :: fields[i] == Bin(BytesAt(args, i))
  {
    seq(|args|, i requires 0 <= i < |args| => Bin(BytesAt(args, i)))
  }

  function BinListPlan(args: seq<Arg>): nat {
    if args == [] then 0 else BinListPlan(args[..|args| - 1]) + (4 + |BytesAt(args, |args| - 1)|)
  }

  lemma {:induction false} BinListSize(args: seq<Arg>)
    ensures Size(BinList(args)) == BinListPlan(args) >= 4 * |args|
  {
    if args != [] {
      var init := args[..|args| - 1];
      BinListSize(init);
      assert BinList(args)[..|args| - 1] == BinList(init);
    }
  }

  /** The key, the number of field-value pairs, and the pairs; `*` is not written. */
  function XAddFields(commands: seq<Command>, i: nat): seq<Field> {
    var args := CommandAt(commands, i).args;
    if |args| < 2 then [] else [Bin(BytesAt(args, 0)), U16((|args| - 2) / 2)] + BinList(args[2..])
  }

  function XAddGroup(commands: seq<Command>): nat -> seq<Field> {
    (i: nat) => XAddFields(commands, i)
  }

  predicate IsXAdd(c: Command) {
    && |c.args| >= 4 && |c.args| % 2 == 0 && c.name == XADD && BytesAt(c.args, 1) == STAR && (|c.args| - 2) / 2 <= 0xffff
    && c.args[0].Scalar? && forall i | 2 <= i < |c.args| :: c.args[i].Scalar?
  }

  predicate XAddIsShort(c: Command) {
    IsShort(At(c.args, 0)) && forall i | 2 <= i < |c.args| :: IsShort(c.args[i])
  }

  function XAddCheck(commands: seq<Command>): nat -> Verdict {
    (i: nat) =>
      var c := CommandAt(commands, i);
      if !IsXAdd(c) then Ineligible else if !XAddIsShort(c) then Faulty else Fine
  }

  function XAddPlan(commands: seq<Command>): nat -> nat {
    (i: nat) =>
      var args := CommandAt(commands, i).args;
      if |args| < 2 then 0 else 2 + (4 + |BytesAt(args, 0)|) + BinListPlan(args[2..])
  }

  function XAddLeast(c: Command): nat {
    if |c.args| < 2 then 0 else 2 + (|c.args| - 1) * 4
  }

  lemma {:induction false} XAddSize(commands: seq<Command>, i: nat)
    ensures Size(XAddFields(commands, i)) == XAddPlan(commands)(i) >= XAddLeast(CommandAt(commands, i))
  {
    var args := CommandAt(commands, i).args;
    if |args| >= 2 {
      var first := [Bin(BytesAt(args, 0)), U16((|args| - 2) / 2)];
      FirstSize(BytesAt(args, 0), (|args| - 2) / 2);
      BinListSize(args[2..]);
      hide FieldSize, BinList, BinListPlan, Size;
      SizeConcat(first, BinList(args[2..]));
    }
  }

  lemma {:induction false} FirstSize(key: seq<byte>, pairs: nat)
    ensures Size([Bin(key), U16(pairs)]) == 2 + (4 + |key|)
  {
    SizeOfShort([Bin(key), U16(pairs)]);
  }

  lemma {:induction false} XAddItem(commands: seq<Command>, i: nat)
    ensures Size(XAddFields(commands, i)) == XAddPlan(commands)(i) >= XAddLeast(CommandAt(commands, i))
    ensures XAddCheck(commands)(i).Fine? ==> AllOk(XAddFields(commands, i))
  {
    XAddSize(commands, i);
    if XAddCheck(commands)(i).Fine? {
      var args := CommandAt(commands, i).args;
      XAddIsOk(CommandAt(commands, i));
      hide Size, XAddPlan, XAddLeast, BinList, FieldOk, XAddIsShort, AllOk;
      OkConcat([Bin(BytesAt(args, 0)), U16((|args| - 2) / 2)], BinList(args[2..]));
    }
  }

  lemma {:induction false} XAddIsOk(c: Command)
    requires IsXAdd(c) && XAddIsShort(c)
    ensures AllOk([Bin(BytesAt(c.args, 0)), U16((|c.args| - 2) / 2)]) && AllOk(BinList(c.args[2..]))
  {
    var pairs := c.args[2..];
    forall k | 0 <= k < |pairs|
      ensures FieldOk(BinList(pairs)[k])
    {
      assert pairs[k] == c.args[k + 2];
    }
  }

  /** The commands are checked first, while the lower bound adds up. */
  method XAddPipeline(commands: seq<Command>, maxBodyBytes: nat) returns (r: Outcome)
    requires |commands| <= MAX_U32
    ensures var n := |commands|;
            var fields := PipelineHead(XADD_MODE, n) + Groups(XAddGroup(commands), n);
            && (r.Encoded? <==> AllFine(XAddCheck(commands), n) && Size(fields) <= maxBodyBytes)
            && (r.Encoded? ==> AllOk(fields) && r.payload == BytesOf(fields))
            && (r.TooLarge? ==> Size(fields) > maxBodyBytes)
            && (r.NotCompact? <==> exists i :: 0 <= i < n && !IsXAdd(commands[i]))
            && (r.BadArgument? ==> exists i :: 0 <= i < n && !XAddIsShort(commands[i]))
  {
    var n := |commands|;
    var head, group, check := PipelineHead(XADD_MODE, n), XAddGroup(commands), XAddCheck(commands);
    PipelineHeadExact(XADD_MODE, n);
    hide PipelineHead, AllOk, FieldOk, Size, IsXAdd, XAddIsShort, Refused, FirstIs, XAddPlan;
    var eligible, minimum := XAddMinimum(commands);
    if !eligible {
      XAddNotFine(commands);
      return NotCompact;
    }
    XAddPlanExact(commands, head, n);
    XAddRefusal(commands, minimum > maxBodyBytes);
    r := EncodeRequest(true, head, 6, group, XAddPlan(commands), NoEarlyCheck(), check, minimum, n, maxBodyBytes);
  }

  /** Whether every command is eligible, and a lower bound of the size if so. */
  method XAddMinimum(commands: seq<Command>) returns (eligible: bool, minimum: nat)
    ensures eligible <==> forall i | 0 <= i < |commands| :: IsXAdd(commands[i])
    ensures eligible ==> minimum <= 6 + Size(Groups(XAddGroup(commands), |commands|))
  {
    hide Size, IsXAdd, XAddLeast;
    minimum := 6;
    for i := 0 to |commands|
      invariant minimum <= 6 + Size(Groups(XAddGroup(commands), i))
      invariant forall j | 0 <= j < i :: IsXAdd(commands[j])
    {
      if !IsXAdd(commands[i]) { return false, minimum; }
      XAddItem(commands, i);
      SizeConcat(Groups(XAddGroup(commands), i), XAddGroup(commands)(i));
      minimum := minimum + XAddLeast(commands[i]);
    }
    return true, minimum;
  }

  lemma XAddNotFine(commands: seq<Command>)
    requires exists i :: 0 <= i < |commands| && !IsXAdd(commands[i])
    ensures !AllFine(XAddCheck(commands), |commands|)
  {
    var i :| 0 <= i < |commands| && !IsXAdd(commands[i]);
    assert !XAddCheck(commands)(i).Fine?;
  }

  lemma {:induction false} XAddRefusal(commands: seq<Command>, over: bool)
    requires forall i | 0 <= i < |commands| :: IsXAdd(commands[i])
    ensures !Refused(true, NoEarlyCheck(), XAddCheck(commands), over, |commands|, Ineligible)
    ensures Refused(true, NoEarlyCheck(), XAddCheck(commands), over, |commands|, Faulty)
            ==> exists i :: 0 <= i < |commands| && !XAddIsShort(commands[i])
  {
    hide IsXAdd, XAddIsShort;
  }

  function NoEarlyCheck(): nat -> Verdict {
    (i: nat) => Fine
  }

  lemma {:induction false} XAddPlanExact(commands: seq<Command>, head: seq<Field>, n: nat)
    requires AllOk(head) && Size(head) == 6
    ensures PlanIsExact(true, head, 6, XAddGroup(commands), XAddPlan(commands), XAddCheck(commands), n)
  {
    hide AllOk, Size, XAddPlan;
    forall i: nat | i < n
      ensures ItemExact(XAddGroup(commands), XAddPlan(commands), XAddCheck(commands), 0, i)
    {
      XAddItem(commands, i);
    }
    ExactItemByItem(true, head, 6, XAddGroup(commands), XAddPlan(commands), XAddCheck(commands), n, 6, 0);
  }

  // ----- Reading XADD back -----

  function Bins(n: nat): seq<Kind> {
    seq(n, _ => KBin)
  }

  /** The number of pairs says how many arguments follow. */
  function ReadXAdd(s: seq<byte>): Option<(seq<Field>, seq<byte>)> {
    match ReadFields([KBin, KU16], s)
    case None => None
    case Some(first) =>
      if |first.0| != 2 || !first.0[1].U16? then None
      else
        match ReadFields(Bins(2 * first.0[1].n), first.1)
        case None => None
        case Some(pairs) => Some((first.0 + pairs.0, pairs.1))
  }

  function ReadXAdds(n: nat, s: seq<byte>): Option<(seq<seq<Field>>, seq<byte>)>
    decreases n
  {
    if n == 0 then Some(([], s))
    else
      match ReadXAdd(s)
      case None => None
      case Some(first) =>
        match ReadXAdds(n - 1, first.1)
        case None => None
        case Some(others) => Some(([first.0] + others.0, others.1))
  }

  function ReadXAddPipeline(s: seq<byte>): Option<(seq<Field>, seq<seq<Field>>)> {
    match ReadFields(PIPELINE_HEAD, s)
    case None => None
    case Some(head) =>
      if |head.0| != 3 || !head.0[2].U32? then None
      else
        match ReadXAdds(head.0[2].n, head.1)
        case None => None
        case Some(groups) => if groups.1 == [] then Some((head.0, groups.0)) else None
  }

  lemma {:induction false} XAddRoundTrip(commands: seq<Command>, i: nat, rest: seq<byte>)
    requires XAddCheck(commands)(i).Fine?
    ensures AllOk(XAddFields(commands, i))
    ensures ReadXAdd(BytesOf(XAddFields(commands, i)) + rest) == Some((XAddFields(commands, i), rest))
  {
    var c := CommandAt(commands, i);
    XAddIsOk(c);
    assert XAddFields(commands, i) == [Bin(BytesAt(c.args, 0)), U16((|c.args| - 2) / 2)] + BinList(c.args[2..]);
    assert |c.args[2..]| == 2 * ((|c.args| - 2) / 2);
    hide IsXAdd, XAddIsShort, BinList;
    TwoPartsRoundTrip(BytesAt(c.args, 0), (|c.args| - 2) / 2, c.args[2..], rest);
  }

  lemma {:induction false} TwoPartsRoundTrip(key: seq<byte>, count: nat, args: seq<Arg>, rest: seq<byte>)
    requires AllOk([Bin(key), U16(count)]) && AllOk(BinList(args)) && |args| == 2 * count
    ensures AllOk([Bin(key), U16(count)] + BinList(args))
    ensures ReadXAdd(BytesOf([Bin(key), U16(count)] + BinList(args)) + rest) == Some(([Bin(key), U16(count)] + BinList(args), rest))
  {
    var first, pairs := [Bin(key), U16(count)], BinList(args);
    assert KindsOf(first) == [KBin, KU16] && KindsOf(pairs) == Bins(2 * count);
    hide FieldOk, FieldBytes, ReadFields, BinList, KindsOf, Bins, AllOk, BytesOf;
    BytesConcat(first, pairs);
    Associative(BytesOf(first), BytesOf(pairs), rest);
    FieldsRoundTrip(first, BytesOf(pairs) + rest);
    FieldsRoundTrip(pairs, rest);
  }

  lemma {:induction false} XAddsRoundTrip(commands: seq<Command>, k: nat, n: nat, rest: seq<byte>)
    requires k <= n && AllFine(XAddCheck(commands), n)
    ensures AllOk(Later(XAddGroup(commands), k, n))
    ensures ReadXAdds(n - k, BytesOf(Later(XAddGroup(commands), k, n)) + rest) == Some((GroupList(XAddGroup(commands), k, n), rest))
    decreases n - k
  {
    hide XAddCheck, FieldOk, FieldBytes, ReadXAdd, BinList, AllOk, BytesOf, XAddFields;
    if k == n {
      NoFields();
      assert [] + rest == rest;
    } else {
      var own, others := XAddFields(commands, k), Later(XAddGroup(commands), k + 1, n);
      XAddsRoundTrip(commands, k + 1, n, rest);
      XAddRoundTrip(commands, k, BytesOf(others) + rest);
      BytesConcat(own, others);
      Associative(BytesOf(own), BytesOf(others), rest);
      assert GroupList(XAddGroup(commands), k, n) == [own] + GroupList(XAddGroup(commands), k + 1, n);
    }
  }

  /** The number of commands, every key and every field-value pair are read back. */
  lemma {:induction false} XAddReadBack(commands: seq<Command>)
    requires |commands| <= MAX_U32 && AllFine(XAddCheck(commands), |commands|)
    ensures var n := |commands|;
            var fields := PipelineHead(XADD_MODE, n) + Groups(XAddGroup(commands), n);
            AllOk(fields) && ReadXAddPipeline(BytesOf(fields)) == Some((PipelineHead(XADD_MODE, n), GroupList(XAddGroup(commands), 0, n)))
  {
    var n := |commands|;
    var head, groups := PipelineHead(XADD_MODE, n), Groups(XAddGroup(commands), n);
    PipelineHeadExact(XADD_MODE, n);
    hide XAddCheck, FieldOk, FieldBytes, ReadFields, ReadXAdds, BytesOf, AllOk, Groups, Later, GroupList, XAddFields;
    XAddsRoundTrip(commands, 0, n, []);
    LaterIsAll(XAddGroup(commands), n);
    BytesConcat(head, groups);
    FieldsRoundTrip(head, BytesOf(groups));
    assert BytesOf(groups) + [] == BytesOf(groups);
  }

  /** The encoder that the first command selects takes the whole pipeline, with the consent it needs. */
  ghost predicate IsCompact(commands: seq<Command>, allowStreamXAdd: bool, allowPubSubPublish: bool) {
    var n := |commands|;
    if commands == [] then true
    else
      match commands[0].name
      case SET => AllFine(CommandCheck(commands, SET, 2), n)
      case GET => AllFine(CommandCheck(commands, GET, 1), n)
      case XADD => allowStreamXAdd && AllFine(XAddCheck(commands), n)
      case PUBLISH => allowPubSubPublish && AllFine(CommandCheck(commands, PUBLISH, 2), n)
      case Another => false
  }

  /** The whole choice: an empty pipeline is an empty list of keys, otherwise the first command
      decides, and XADD and PUBLISH need the server's consent. */
  method Pipeline(commands: seq<Command>, maxBodyBytes: nat, allowStreamXAdd: bool, allowPubSubPublish: bool) returns (r: Outcome)
    requires |commands| <= MAX_U32
    ensures r.Encoded? <==> IsCompact(commands, allowStreamXAdd, allowPubSubPublish) && Size(PipelineFields(commands)) <= maxBodyBytes
    ensures r.Encoded? ==> AllOk(PipelineFields(commands)) && r.payload == BytesOf(PipelineFields(commands)) && |r.payload| <= maxBodyBytes
    ensures r.TooLarge? ==> Size(PipelineFields(commands)) > maxBodyBytes
    ensures commands == [] ==> (r.Encoded? <==> 6 <= maxBodyBytes)
    ensures r.Encoded? && commands != [] ==> forall i | 0 <= i < |commands| :: commands[i].name == commands[0].name
    ensures r.Encoded? && commands != [] && commands[0].name == XADD ==> allowStreamXAdd
    ensures r.Encoded? && commands != [] && commands[0].name == PUBLISH ==> allowPubSubPublish
    ensures commands != [] && commands[0].name == Another ==> r.NotCompact?
    ensures commands != [] && commands[0].name == XADD && !allowStreamXAdd ==> r.NotCompact?
    ensures commands != [] && commands[0].name == PUBLISH && !allowPubSubPublish ==> r.NotCompact?
  {
    if commands == [] {
      PipelineHeadExact(GET_MODE, 0);
      if 6 > maxBodyBytes { return TooLarge; }
      assert PipelineHead(GET_MODE, 0) + Groups(CommandGroup([], 1), 0) == PipelineHead(GET_MODE, 0);
      SizeIsLength(PipelineFields([]));
      var payload := WriteRequest(6, PipelineHead(GET_MODE, 0), CommandGroup([], 1), 0);
      return Encoded(payload);
    }
    r := NotCompact;
    match commands[0].name {
      case SET => r := UniformPipeline(commands, SET, 2, SET_MODE, maxBodyBytes);
      case GET => r := UniformPipeline(commands, GET, 1, GET_MODE, maxBodyBytes);
      case XADD => if allowStreamXAdd { r := XAddPipeline(commands, maxBodyBytes); }
      case PUBLISH => if allowPubSubPublish { r := UniformPipeline(commands, PUBLISH, 2, PUBLISH_MODE, maxBodyBytes); }
      case Another =>
    }
    if r.Encoded? {
      SizeIsLength(PipelineFields(commands));
      SameNames(commands);
    }
  }

  function PipelineFields(commands: seq<Command>): seq<Field> {
    var n := |commands|;
    if commands == [] then PipelineHead(GET_MODE, 0)
    else
      match commands[0].name
      case SET => PipelineHead(SET_MODE, n) + Groups(CommandGroup(commands, 2), n)
      case GET => PipelineHead(GET_MODE, n) + Groups(CommandGroup(commands, 1), n)
      case XADD => PipelineHead(XADD_MODE, n) + Groups(XAddGroup(commands), n)
      case PUBLISH => PipelineHead(PUBLISH_MODE, n) + Groups(CommandGroup(commands, 2), n)
      case Another => []
  }

  lemma {:induction false} SameNames(commands: seq<Command>)
    requires commands != []
    ensures forall name, width: nat | AllFine(CommandCheck(commands, name, width), |commands|) ::
              forall i | 0 <= i < |commands| :: commands[i].name == name
    ensures AllFine(XAddCheck(commands), |commands|) ==> forall i | 0 <= i < |commands| :: commands[i].name == XADD
  {
    forall name, width: nat, i | AllFine(CommandCheck(commands, name, width), |commands|) && 0 <= i < |commands|
      ensures commands[i].name == name
    {
      assert CommandCheck(commands, name, width)(i).Fine?;
    }
    forall i | AllFine(XAddCheck(commands), |commands|) && 0 <= i < |commands|
      ensures commands[i].name == XADD
    {
      assert XAddCheck(commands)(i).Fine?;
    }
  }
}
