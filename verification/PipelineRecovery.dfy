/** Compact pipelines, end to end: which lists of commands have that form, and that a server reads back
    every command with its name and its arguments. */
module PipelineRecovery {
  import opened Wrappers
  import opened Bytes
  import opened CompactFields
  import opened CompactPlan
  import opened CompactFlow
  import opened CompactFlowSingle
  import opened CompactRequest
  import opened CompactReaders
  import opened CompactRecovery

  datatype SentCommand = SentCommand(name: Name, args: seq<seq<byte>>)

  // ----- The format -----

  /** The second byte says which command the pipeline repeats. */
  function ReadCommands(s: seq<byte>): Option<seq<SentCommand>> {
    if |s| < 2 || s[0] != 0x94 then None
    else
      match s[1]
      case 0x81 => Named(SET, ReadPipeline(s, [KBin, KBin], ArgsOf(2)))
      case 0x82 => Named(GET, ReadPipeline(s, [KBin], ArgsOf(1)))
      case 0xa3 => Named(PUBLISH, ReadPipeline(s, [KBin, KBin], ArgsOf(2)))
      case 0xa2 =>
        var entries := ReadStreamEntries(s);
        if entries.None? then None else Some(Entered(entries.value.1))
      case _ => None
  }

  function Named(name: Name, read: Option<(nat, seq<seq<seq<byte>>>)>): Option<seq<SentCommand>> {
    if read.None? then None
    else Some(seq(|read.value.1|, i requires 0 <= i < |read.value.1| => SentCommand(name, read.value.1[i])))
  }

  /** Stream entries get their identifiers from the server, which is what `*` asks for. */
  function Entered(entries: seq<StreamEntry>): seq<SentCommand> {
    seq(|entries|, i requires 0 <= i < |entries| => SentCommand(XADD, [entries[i].key, [0x2a]] + entries[i].pairs))
  }

  // ----- What has the compact form -----

  predicate PlainGiven(c: Command, name: Name, width: nat) {
    c.name == name && |c.args| == width && AllWritable(c.args)
  }

  /** A key, `*`, and up to 65535 pairs of a name and a value. */
  predicate EntryGiven(c: Command) {
    && c.name == XADD && |c.args| >= 4 && |c.args| % 2 == 0 && (|c.args| - 2) / 2 <= 0xffff
    && AllWritable(c.args) && c.args[1].bytes == [0x2a]
  }

  predicate CommandGiven(c: Command) {
    match c.name
    case SET => PlainGiven(c, SET, 2)
    case GET => PlainGiven(c, GET, 1)
    case PUBLISH => PlainGiven(c, PUBLISH, 2)
    case XADD => EntryGiven(c)
    case Another => false
  }

  /** All commands are of one kind, and the server has agreed to it. */
  ghost predicate PipelineGiven(commands: seq<Command>, allowStreamXAdd: bool, allowPubSubPublish: bool) {
    && (forall i | 0 <= i < |commands| :: CommandGiven(commands[i]) && commands[i].name == commands[0].name)
    && (commands != [] && commands[0].name == XADD ==> allowStreamXAdd)
    && (commands != [] && commands[0].name == PUBLISH ==> allowPubSubPublish)
  }

  ghost predicate AllGiven(commands: seq<Command>) {
    forall i | 0 <= i < |commands| :: CommandGiven(commands[i])
  }

  lemma GivenIsWritable(c: Command)
    requires CommandGiven(c)
    ensures AllWritable(c.args)
  {
  }

  /** The commands as the server is to get them. */
  ghost function SentAs(commands: seq<Command>): (r: seq<SentCommand>)
    requires AllGiven(commands)
    ensures |r| == |commands|
    ensures forall i | 0 <= i < |commands| :: AllWritable(commands[i].args) && r[i] == SentCommand(commands[i].name, AllSent(commands[i].args))
  {
    seq(|commands|, i requires 0 <= i < |commands| && CommandGiven(commands[i]) =>
      GivenIsWritable(commands[i]); SentCommand(commands[i].name, AllSent(commands[i].args)))
  }

  // ----- Checks -----

  lemma {:induction false} PlainChecked(commands: seq<Command>, name: Name, width: nat, i: nat)
    requires (width == 1 || width == 2) && i < |commands|
    ensures CommandCheck(commands, name, width)(i).Fine? <==> PlainGiven(commands[i], name, width)
    ensures PlainGiven(commands[i], name, width) ==> ArgsOfCommand(commands, width)(i) == AllSent(commands[i].args)
  {
    var args := commands[i].args;
    if PlainGiven(commands[i], name, width) {
      assert At(args, 0) == args[0];
      assert width == 2 ==> At(args, 1) == args[1];
      assert ArgsOfCommand(commands, width)(i) == AllSent(args);
    }
    if CommandCheck(commands, name, width)(i).Fine? {
      assert At(args, 0) == args[0];
      assert width == 2 ==> At(args, 1) == args[1];
    }
  }

  lemma {:induction false} EntryChecked(commands: seq<Command>, i: nat)
    requires i < |commands|
    ensures XAddCheck(commands)(i).Fine? <==> EntryGiven(commands[i])
    ensures EntryGiven(commands[i]) ==>
              var e := StreamEntriesOf(commands)(i); [e.key, [0x2a]] + e.pairs == AllSent(commands[i].args)
  {
    var c := commands[i];
    if EntryGiven(c) {
      assert forall k | 0 <= k < |c.args| :: Writable(c.args[k]);
      assert BytesAt(c.args, 1) == STAR;
      var e := StreamEntriesOf(commands)(i);
      assert |[e.key, [0x2a]] + e.pairs| == |c.args|;
      forall k | 0 <= k < |c.args|
        ensures ([e.key, [0x2a]] + e.pairs)[k] == AllSent(c.args)[k]
      {
        if k >= 2 { assert e.pairs[k - 2] == BytesAt(c.args, 2 + (k - 2)); }
      }
    }
    if XAddCheck(commands)(i).Fine? {
      assert BytesAt(c.args, 1) == STAR && At(c.args, 1) == c.args[1];
      assert At(c.args, 0) == c.args[0];
    }
  }

  /** The choice of the encoder is right: a pipeline is taken exactly when it is of one kind. */
  lemma {:induction false} CompactIsGiven(commands: seq<Command>, allowStreamXAdd: bool, allowPubSubPublish: bool)
    ensures IsCompact(commands, allowStreamXAdd, allowPubSubPublish) <==> PipelineGiven(commands, allowStreamXAdd, allowPubSubPublish)
  {
    hide CommandCheck, XAddCheck, EntryGiven, PlainGiven;
    forall i | 0 <= i < |commands|
      ensures CommandCheck(commands, SET, 2)(i).Fine? <==> PlainGiven(commands[i], SET, 2)
      ensures CommandCheck(commands, GET, 1)(i).Fine? <==> PlainGiven(commands[i], GET, 1)
      ensures CommandCheck(commands, PUBLISH, 2)(i).Fine? <==> PlainGiven(commands[i], PUBLISH, 2)
      ensures XAddCheck(commands)(i).Fine? <==> EntryGiven(commands[i])
    {
      PlainChecked(commands, SET, 2, i);
      PlainChecked(commands, GET, 1, i);
      PlainChecked(commands, PUBLISH, 2, i);
      EntryChecked(commands, i);
    }
    forall i | 0 <= i < |commands|
      ensures PlainGiven(commands[i], SET, 2) ==> commands[i].name == SET
      ensures PlainGiven(commands[i], GET, 1) ==> commands[i].name == GET
      ensures PlainGiven(commands[i], PUBLISH, 2) ==> commands[i].name == PUBLISH
      ensures EntryGiven(commands[i]) ==> commands[i].name == XADD
    {
      GivenNames(commands[i]);
    }
  }

  lemma GivenNames(c: Command)
    ensures forall name, width: nat :: PlainGiven(c, name, width) ==> c.name == name
    ensures EntryGiven(c) ==> c.name == XADD
  {
  }

  // ----- The first two bytes -----

  lemma {:induction false} FirstBytes(mode: nat, count: nat, groups: seq<Field>)
    requires mode < 256 && AllOk(PipelineHead(mode, count) + groups)
    ensures var s := BytesOf(PipelineHead(mode, count) + groups); |s| >= 2 && s[0] == 0x94 && s[1] as nat == mode
  {
    var rest := [U32(count)] + groups;
    var fields := PipelineHead(mode, count) + groups;
    assert fields == [U8(0x94)] + ([U8(mode)] + rest);
    assert forall i | 0 <= i < |rest| :: rest[i] == fields[i + 2];
    hide PipelineHead, FieldSize;
    BytesConcat([U8(0x94)], [U8(mode)] + rest);
    BytesConcat([U8(mode)], rest);
    BytesOfOne(U8(0x94));
    BytesOfOne(U8(mode));
    OneByte(0x94);
    OneByte(mode);
  }

  lemma OneByte(n: nat)
    requires n < 256
    ensures FieldBytes(U8(n)) == [n as byte]
  {
  }

  // ----- Recovery -----

  lemma {:induction false} PlainNamed(commands: seq<Command>, name: Name, width: nat, mode: nat)
    requires (width == 1 || width == 2) && AllGiven(commands) && forall i | 0 <= i < |commands| :: PlainGiven(commands[i], name, width)
    ensures AllFine(CommandCheck(commands, name, width), |commands|)
    ensures Named(name, Some((mode, Listed(ArgsOfCommand(commands, width), |commands|)))) == Some(SentAs(commands))
  {
    forall i: nat | i < |commands|
      ensures CommandCheck(commands, name, width)(i).Fine? && commands[i].name == name
      ensures ArgsOfCommand(commands, width)(i) == AllSent(commands[i].args)
    {
      PlainChecked(commands, name, width, i);
    }
    hide CommandCheck, PlainGiven, AllWritable, ArgsOfCommand, CommandGiven, AllSent;
    var read := Named(name, Some((mode, Listed(ArgsOfCommand(commands, width), |commands|)))).value;
    assert |read| == |SentAs(commands)|;
    assert forall i | 0 <= i < |read| :: read[i] == SentAs(commands)[i];
    assert read == SentAs(commands);
  }

  lemma {:induction false} PlainIsRecovered(commands: seq<Command>, name: Name, width: nat, mode: nat)
    requires (width == 1 || width == 2) && mode < 256 && |commands| <= 0xffff_ffff
    requires AllGiven(commands) && forall i | 0 <= i < |commands| :: PlainGiven(commands[i], name, width)
    ensures var fields := PipelineHead(mode, |commands|) + Groups(CommandGroup(commands, width), |commands|);
            && AllOk(fields) && |BytesOf(fields)| >= 2 && BytesOf(fields)[0] == 0x94 && BytesOf(fields)[1] as nat == mode
            && Named(name, ReadPipeline(BytesOf(fields), CommandKinds(width), ArgsOf(width))) == Some(SentAs(commands))
  {
    PlainNamed(commands, name, width, mode);
    hide PipelineHead, Groups, CommandGroup, ReadPipeline, CommandKinds, ArgsOf, AllOk, BytesOf, CommandCheck, PlainGiven, AllWritable;
    hide Named, SentAs, Listed, ArgsOfCommand, AllFine, CommandGiven;
    UniformIsRead(commands, name, width, mode);
    FirstBytes(mode, |commands|, Groups(CommandGroup(commands, width), |commands|));
  }

  lemma {:induction false} EntriesAreRecovered(commands: seq<Command>)
    requires |commands| <= 0xffff_ffff && AllGiven(commands) && forall i | 0 <= i < |commands| :: EntryGiven(commands[i])
    ensures var fields := PipelineHead(XADD_MODE, |commands|) + Groups(XAddGroup(commands), |commands|);
            && AllOk(fields) && |BytesOf(fields)| >= 2 && BytesOf(fields)[0] == 0x94 && BytesOf(fields)[1] == 0xa2
            && ReadStreamEntries(BytesOf(fields)).Some?
            && Entered(ReadStreamEntries(BytesOf(fields)).value.1) == SentAs(commands)
  {
    forall i: nat | i < |commands|
      ensures XAddCheck(commands)(i).Fine? && commands[i].name == XADD
      ensures [StreamEntriesOf(commands)(i).key, [0x2a]] + StreamEntriesOf(commands)(i).pairs == AllSent(commands[i].args)
    {
      EntryChecked(commands, i);
    }
    hide PipelineHead, Groups, XAddGroup, ReadStreamEntries, AllOk, BytesOf, XAddCheck, EntryGiven, AllWritable, StreamEntriesOf;
    XAddIsRead(commands);
    FirstBytes(XADD_MODE, |commands|, Groups(XAddGroup(commands), |commands|));
  }

  /** A server that knows only the format gets the commands of a compact pipeline as they were given:
      all of them, in order, each with its name and its arguments. */
  lemma {:induction false} PipelineIsRecovered(commands: seq<Command>, allowStreamXAdd: bool, allowPubSubPublish: bool)
    requires |commands| <= 0xffff_ffff && PipelineGiven(commands, allowStreamXAdd, allowPubSubPublish)
    ensures AllOk(PipelineFields(commands)) && AllGiven(commands)
    ensures ReadCommands(BytesOf(PipelineFields(commands))) == Some(SentAs(commands))
  {
    hide Groups, PipelineHead, CommandGroup, XAddGroup, ReadPipeline, ReadStreamEntries, ArgsOf, BytesOf, AllOk, AllWritable, Named, Entered;
    hide SentAs;
    if commands == [] {
      EmptyPipeline();
      PlainIsRecovered([], GET, 1, 0x82);
    } else {
      match commands[0].name
      case SET => PlainIsRecovered(commands, SET, 2, 0x81);
      case GET => PlainIsRecovered(commands, GET, 1, 0x82);
      case PUBLISH => PlainIsRecovered(commands, PUBLISH, 2, 0xa3);
      case XADD => EntriesAreRecovered(commands);
      case Another =>
    }
  }

  lemma EmptyPipeline()
    ensures PipelineFields([]) == PipelineHead(0x82, 0) + Groups(CommandGroup([], 1), 0)
  {
  }
}
