/** The frames in a stream of bytes: what the receive buffer has to deliver, however the stream is
    cut into chunks. */
module ReceiveStream {
  import opened Bytes

  const HEADER_SIZE := 24
  const RESPONSE_VERSION: byte := 129
  const MAGIC: seq<byte> := [0x46, 0x53, 0x4e, 0x50]

  datatype Frame = Frame(flags: byte, laneId: nat, opcode: nat, requestId: nat, body: seq<byte>)

  datatype Parse = NeedMore | Invalid | Parsed(frame: Frame, rest: seq<byte>)

  /** The magic is compared as ASCII text, which ignores the highest bit of each byte. */
  predicate MagicOk(s: seq<byte>)
    requires |s| >= HEADER_SIZE
  {
    forall i | 0 <= i < 4 :: s[i] % 128 == MAGIC[i]
  }

  function BodyLength(s: seq<byte>): nat
    requires |s| >= HEADER_SIZE
  {
    UIntAt(s, 20, 4)
  }

  predicate HeaderOk(s: seq<byte>, limit: nat)
    requires |s| >= HEADER_SIZE
  {
    MagicOk(s) && s[4] == RESPONSE_VERSION && BodyLength(s) <= limit
  }

  function FrameLength(s: seq<byte>): nat
    requires |s| >= HEADER_SIZE
  {
    HEADER_SIZE + BodyLength(s)
  }

  /** The first frame of a stream. */
  function ParseNext(s: seq<byte>, limit: nat): Parse {
    if |s| < HEADER_SIZE then NeedMore
    else if !HeaderOk(s, limit) then Invalid
    else if |s| < FrameLength(s) then NeedMore
    else Parsed(FrameIn(s), s[FrameLength(s)..])
  }

  function FrameIn(s: seq<byte>): Frame
    requires |s| >= HEADER_SIZE && |s| >= FrameLength(s)
  {
    Frame(s[5], UIntAt(s, 6, 4), UIntAt(s, 10, 2), UIntAt(s, 12, 8), s[HEADER_SIZE..FrameLength(s)])
  }

  /** All the frames of a stream, up to the first incomplete or invalid one. */
  function Frames(s: seq<byte>, limit: nat): (r: (seq<Frame>, seq<byte>))
    ensures !ParseNext(r.1, limit).Parsed?
    decreases |s|
  {
    var next := ParseNext(s, limit);
    if next.Parsed? then
      var (frames, rest) := Frames(next.rest, limit);
      ([next.frame] + frames, rest)
    else ([], s)
  }

  /** More bytes do not change a frame that is complete, or an error. */
  lemma {:induction false} ParseNextExtends(s: seq<byte>, t: seq<byte>, limit: nat)
    ensures ParseNext(s, limit).Parsed? ==>
              ParseNext(s + t, limit) == Parsed(ParseNext(s, limit).frame, ParseNext(s, limit).rest + t)
    ensures ParseNext(s, limit).Invalid? ==> ParseNext(s + t, limit).Invalid?
  {
    if |s| >= HEADER_SIZE {
      HeaderExtends(s, s + t);
      if HeaderOk(s, limit) && |s| >= FrameLength(s) {
        assert (s + t)[HEADER_SIZE..FrameLength(s)] == s[HEADER_SIZE..FrameLength(s)];
        assert (s + t)[FrameLength(s)..] == s[FrameLength(s)..] + t;
      }
    }
  }

  lemma {:induction false} HeaderExtends(s: seq<byte>, t: seq<byte>)
    requires |s| >= HEADER_SIZE && s <= t
    ensures BodyLength(s) == BodyLength(t) && (MagicOk(s) <==> MagicOk(t)) && s[4] == t[4] && s[5] == t[5]
    ensures UIntAt(s, 6, 4) == UIntAt(t, 6, 4) && UIntAt(s, 10, 2) == UIntAt(t, 10, 2) && UIntAt(s, 12, 8) == UIntAt(t, 12, 8)
  {
    UIntAtPrefix(s, t, 20, 4);
    UIntAtPrefix(s, t, 6, 4);
    UIntAtPrefix(s, t, 10, 2);
    UIntAtPrefix(s, t, 12, 8);
    assert forall i | 0 <= i < 4 :: s[i] == t[i];
  }

  // ----- Runs: chunks arriving and frames being taken, in any order -----

  datatype Event = Arrives(chunk: seq<byte>) | Asked

  /** `content` is what has arrived and not been delivered; `failed` once an invalid frame has
      been met, after which the connection is given up. */
  datatype Stream = Stream(content: seq<byte>, delivered: seq<Frame>, failed: bool)

  const EMPTY := Stream([], [], false)

  function After(s: Stream, e: Event, limit: nat): Stream {
    if s.failed then s
    else
      match e
      case Arrives(chunk) => s.(content := s.content + chunk)
      case Asked =>
        match ParseNext(s.content, limit)
        case NeedMore => s
        case Invalid => s.(failed := true)
        case Parsed(frame, rest) => s.(content := rest, delivered := s.delivered + [frame])
  }

  function Run(s: Stream, events: seq<Event>, limit: nat): Stream
    decreases |events|
  {
    if events == [] then s else Run(After(s, events[0], limit), events[1..], limit)
  }

  function Arrived(events: seq<Event>): seq<byte> {
    if events == [] then []
    else (if events[0].Arrives? then events[0].chunk else []) + Arrived(events[1..])
  }

  /** What has been delivered, and what is still to come out of the content. */
  lemma {:induction false} RunDelivers(s: Stream, events: seq<Event>, limit: nat)
    ensures var r := Run(s, events, limit);
            s.delivered <= r.delivered
            && r.delivered + Frames(r.content, limit).0 <= s.delivered + Frames(s.content + Arrived(events), limit).0
            && (!r.failed ==>
                  r.delivered + Frames(r.content, limit).0 == s.delivered + Frames(s.content + Arrived(events), limit).0)
    decreases |events|
  {
    if events == [] {
      assert s.content + [] == s.content;
    } else {
      var t, later := After(s, events[0], limit), Arrived(events[1..]);
      RunDelivers(t, events[1..], limit);
      if s.failed {
        FailedStays(s, events, limit);
        FramesExtend(s.content, Arrived(events), limit);
      } else if events[0].Arrives? {
        assert s.content + (events[0].chunk + later) == t.content + later;
      } else {
        assert [] + later == later;
        AskedStep(s, t, later, limit);
      }
    }
  }

  lemma {:induction false} AskedStep(s: Stream, t: Stream, later: seq<byte>, limit: nat)
    requires !s.failed && t == After(s, Asked, limit)
    ensures t.delivered + Frames(t.content + later, limit).0 == s.delivered + Frames(s.content + later, limit).0
  {
    ParseNextExtends(s.content, later, limit);
    if ParseNext(s.content, limit).Parsed? {
      var (frames, rest) := Frames(t.content + later, limit);
      assert s.delivered + [ParseNext(s.content, limit).frame] + frames == s.delivered + ([ParseNext(s.content, limit).frame] + frames);
    }
  }

  lemma {:induction false} FailedStays(s: Stream, events: seq<Event>, limit: nat)
    requires s.failed
    ensures Run(s, events, limit) == s
    decreases |events|
  {
    if events != [] { FailedStays(s, events[1..], limit); }
  }

  lemma {:induction false} FramesExtend(s: seq<byte>, t: seq<byte>, limit: nat)
    ensures Frames(s, limit).0 <= Frames(s + t, limit).0
    decreases |s|
  {
    ParseNextExtends(s, t, limit);
    if ParseNext(s, limit).Parsed? { FramesExtend(ParseNext(s, limit).rest, t, limit); }
  }

  /** For every way of cutting the stream into chunks and every interleaving of arrivals and
      requests for a frame: what is delivered is a prefix of the frames of the whole stream; and
      when a request for a frame finds none, everything complete has been delivered. */
  lemma {:induction false} DeliveredIsPrefixOfStream(events: seq<Event>, limit: nat)
    ensures var r := Run(EMPTY, events, limit);
            && r.delivered <= Frames(Arrived(events), limit).0
            && (!r.failed && ParseNext(r.content, limit).NeedMore? ==>
                  r.delivered == Frames(Arrived(events), limit).0)
  {
    RunDelivers(EMPTY, events, limit);
    assert [] + Arrived(events) == Arrived(events);
    assert [] + Frames(Arrived(events), limit).0 == Frames(Arrived(events), limit).0;
    var r := Run(EMPTY, events, limit);
    assert r.delivered <= r.delivered + Frames(r.content, limit).0;
    if ParseNext(r.content, limit).NeedMore? { assert r.delivered + [] == r.delivered; }
  }
}
