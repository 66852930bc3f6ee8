/** The wire format of a response frame, as a server writes it, and the receiver's reading of it. */
module FrameWire {
  import opened Bytes
  import opened ReceiveStream

  /** The fields of a frame fit the widths that its header gives them. */
  predicate Fits(f: Frame) {
    f.laneId < 0x1_0000_0000 && f.opcode < 0x1_0000 && f.requestId < 0x1_0000_0000_0000_0000 && |f.body| < 0x1_0000_0000
  }

  /** Magic, version and flags; lane, opcode, request and length of the body; the body. */
  function Wire(f: Frame): seq<byte> {
    Start(f) + UIntBytes(f.laneId, 4) + UIntBytes(f.opcode, 2) + UIntBytes(f.requestId, 8) + UIntBytes(|f.body|, 4) + f.body
  }

  /** "FSNP", the version of a response, and the flags. */
  function Start(f: Frame): seq<byte> {
    [0x46, 0x53, 0x4e, 0x50, 129, f.flags]
  }

  lemma {:induction false} HeaderFields(f: Frame, rest: seq<byte>)
    requires Fits(f)
    ensures var s := Wire(f) + rest;
            && |s| >= 24 + |f.body|
            && UIntAt(s, 6, 4) == f.laneId && UIntAt(s, 10, 2) == f.opcode && UIntAt(s, 12, 8) == f.requestId
            && UIntAt(s, 20, 4) == |f.body|
  {
    var lane, opcode, id, length := UIntBytes(f.laneId, 4), UIntBytes(f.opcode, 2), UIntBytes(f.requestId, 8), UIntBytes(|f.body|, 4);
    Powers();
    UIntWithin(Start(f), f.laneId, 4, opcode + id + length + f.body + rest);
    UIntWithin(Start(f) + lane, f.opcode, 2, id + length + f.body + rest);
    UIntWithin(Start(f) + lane + opcode, f.requestId, 8, length + f.body + rest);
    UIntWithin(Start(f) + lane + opcode + id, |f.body|, 4, f.body + rest);
    Regrouped(Start(f), lane, opcode, id, length, f.body, rest);
  }

  lemma Regrouped(a: seq<byte>, b: seq<byte>, c: seq<byte>, d: seq<byte>, e: seq<byte>, f: seq<byte>, g: seq<byte>)
    ensures a + b + c + d + e + f + g == a + b + (c + d + e + f + g)
    ensures a + b + c + d + e + f + g == a + b + c + (d + e + f + g)
    ensures a + b + c + d + e + f + g == a + b + c + d + (e + f + g)
    ensures a + b + c + d + e + f + g == a + b + c + d + e + (f + g)
  {
  }

  /** A frame on the wire, within the limit, is read back as it was written, and nothing that follows it
      is touched. */
  lemma {:induction false} WireIsRead(f: Frame, rest: seq<byte>, limit: nat)
    requires Fits(f)
    ensures |f.body| <= limit ==> ParseNext(Wire(f) + rest, limit) == Parsed(f, rest)
    ensures |f.body| > limit ==> ParseNext(Wire(f) + rest, limit) == Invalid
  {
    hide Wire, UIntAt;
    var s := Wire(f) + rest;
    HeaderFields(f, rest);
    WireShape(f, rest);
    StartIsRead(f, s);
  }

  lemma StartIsRead(f: Frame, s: seq<byte>)
    requires |s| >= 24 && s[..6] == Start(f)
    ensures MagicOk(s) && s[4] == RESPONSE_VERSION && s[5] == f.flags
  {
    assert forall i | 0 <= i < 6 :: s[i] == s[..6][i];
  }

  lemma WireShape(f: Frame, rest: seq<byte>)
    ensures var s := Wire(f) + rest;
            && |Wire(f)| == 24 + |f.body| && s[..6] == Start(f) && s[24..24 + |f.body|] == f.body && s[24 + |f.body|..] == rest
  {
    assert |Wire(f)| == 24 + |f.body|;
  }

  /** What a server sends that answers with these frames, one after the other. */
  function Wires(frames: seq<Frame>): seq<byte> {
    if frames == [] then [] else Wire(frames[0]) + Wires(frames[1..])
  }

  predicate AllFit(frames: seq<Frame>, limit: nat) {
    forall i | 0 <= i < |frames| :: Fits(frames[i]) && |frames[i].body| <= limit
  }

  lemma RestFit(frames: seq<Frame>, limit: nat)
    requires AllFit(frames, limit) && frames != []
    ensures Fits(frames[0]) && |frames[0].body| <= limit && AllFit(frames[1..], limit)
  {
  }

  /** The frames of the bytes of a list of frames are that list, and nothing is left. */
  lemma {:induction false} WiresAreRead(frames: seq<Frame>, limit: nat)
    requires AllFit(frames, limit)
    ensures Frames(Wires(frames), limit) == (frames, [])
  {
    hide Wire, ParseNext, AllFit, Fits, Frames;
    if frames == [] {
      FramesEnd(limit);
    } else {
      RestFit(frames, limit);
      WireIsRead(frames[0], Wires(frames[1..]), limit);
      WiresAreRead(frames[1..], limit);
      FramesOn(Wires(frames), limit);
      assert [frames[0]] + frames[1..] == frames;
    }
  }

  lemma FramesEnd(limit: nat)
    ensures Frames([], limit) == ([], [])
  {
  }

  lemma FramesOn(s: seq<byte>, limit: nat)
    requires ParseNext(s, limit).Parsed?
    ensures var next := ParseNext(s, limit); Frames(s, limit) == ([next.frame] + Frames(next.rest, limit).0, Frames(next.rest, limit).1)
  {
  }

  /** A server's frames arrive as they were sent: however the bytes are cut into chunks and whenever
      frames are asked for, what has been delivered are the first frames of the list, and all of
      them once every chunk is in and there is nothing more to ask for. */
  lemma {:induction false} SentFramesArrive(frames: seq<Frame>, events: seq<Event>, limit: nat)
    requires AllFit(frames, limit) && Arrived(events) == Wires(frames)
    ensures var r := Run(EMPTY, events, limit);
            && r.delivered <= frames
            && (!r.failed && ParseNext(r.content, limit).NeedMore? ==> r.delivered == frames)
  {
    WiresAreRead(frames, limit);
    DeliveredIsPrefixOfStream(events, limit);
  }

  /** A stream is read as a frame only if it starts with that frame, as it is on the wire; only the
      highest bit of each byte of the magic is not looked at. */
  lemma {:induction false} OnlyWiresAreRead(s: seq<byte>, limit: nat)
    requires ParseNext(s, limit).Parsed?
    ensures var f, rest := ParseNext(s, limit).frame, ParseNext(s, limit).rest;
            && Fits(f) && |f.body| <= limit && |s| >= 24
            && s[4..] == (Wire(f) + rest)[4..]
            && forall i | 0 <= i < 4 :: s[i] == Wire(f)[i] || s[i] as int == Wire(f)[i] as int + 128
  {
    var f, rest := ParseNext(s, limit).frame, ParseNext(s, limit).rest;
    ParsedHeader(s, limit);
    hide ParseNext, UIntAt, UIntBytes, Fits, Wire;
    InPieces(s, |f.body|);
    WireTail(f, rest);
    assert s[4..6] == [129, f.flags];
  }

  lemma InPieces(s: seq<byte>, n: nat)
    requires |s| >= 24 + n
    ensures s[4..] == s[4..6] + s[6..10] + s[10..12] + s[12..20] + s[20..24] + s[24..24 + n] + s[24 + n..]
  {
  }

  lemma DropFront(a: seq<byte>, b: seq<byte>)
    requires |a| >= 4
    ensures (a + b)[4..] == a[4..] + b
  {
  }

  lemma {:induction false} WireTail(f: Frame, rest: seq<byte>)
    ensures |Wire(f)| >= 24 && (forall i | 0 <= i < 4 :: Wire(f)[i] == Start(f)[i])
    ensures (Wire(f) + rest)[4..] == [129, f.flags] + UIntBytes(f.laneId, 4) + UIntBytes(f.opcode, 2) + UIntBytes(f.requestId, 8)
                                     + UIntBytes(|f.body|, 4) + f.body + rest
  {
    hide UIntBytes;
    var lane, opcode, id, length := UIntBytes(f.laneId, 4), UIntBytes(f.opcode, 2), UIntBytes(f.requestId, 8), UIntBytes(|f.body|, 4);
    DropFront(Wire(f), rest);
    DropFront(Start(f) + lane + opcode + id + length, f.body);
    DropFront(Start(f) + lane + opcode + id, length);
    DropFront(Start(f) + lane + opcode, id);
    DropFront(Start(f) + lane, opcode);
    DropFront(Start(f), lane);
    assert Start(f)[4..] == [129, f.flags];
  }

  lemma {:induction false} ParsedHeader(s: seq<byte>, limit: nat)
    requires ParseNext(s, limit).Parsed?
    ensures var f, rest := ParseNext(s, limit).frame, ParseNext(s, limit).rest;
            && Fits(f) && |f.body| <= limit && |s| >= 24 + |f.body|
            && UIntBytes(f.laneId, 4) == s[6..10] && UIntBytes(f.opcode, 2) == s[10..12] && UIntBytes(f.requestId, 8) == s[12..20]
            && UIntBytes(|f.body|, 4) == s[20..24] && f.body == s[24..24 + |f.body|] && rest == s[24 + |f.body|..]
            && s[4] == 129 && s[5] == f.flags
            && forall i | 0 <= i < 4 :: s[i] == Start(f)[i] || s[i] as int == Start(f)[i] as int + 128
  {
    Powers();
    UIntBytesOfUIntAt(s, 6, 4);
    UIntBytesOfUIntAt(s, 10, 2);
    UIntBytesOfUIntAt(s, 12, 8);
    UIntBytesOfUIntAt(s, 20, 4);
    MagicBits(s, FrameIn(s));
    hide UIntAt, UIntBytes, MagicOk, Start;
  }

  lemma MagicBits(s: seq<byte>, f: Frame)
    requires |s| >= 24 && MagicOk(s)
    ensures forall i | 0 <= i < 4 :: s[i] == Start(f)[i] || s[i] as int == Start(f)[i] as int + 128
  {
    forall i | 0 <= i < 4
      ensures s[i] == Start(f)[i] || s[i] as int == Start(f)[i] as int + 128
    {
      assert s[i] % 128 == MAGIC[i];
      assert Start(f)[i] == MAGIC[i] && MAGIC[i] < 128;
    }
  }
}
