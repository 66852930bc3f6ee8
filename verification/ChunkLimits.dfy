/** When the reassembly of responses refuses a frame, and which frames belong together. */
module ChunkLimits {
  import opened Wrappers
  import opened Bytes
  import R = ReceiveStream
  import opened ChunkAssembly

  /** Frames belong together exactly when they agree on request, opcode and lane. */
  lemma BelongTogether(a: R.Frame, b: R.Frame)
    ensures KeyOf(a) == KeyOf(b) <==> a.requestId == b.requestId && a.opcode == b.opcode && a.laneId == b.laneId
  {
  }

  /** More is to come when the sixth lowest bit of the flags is set. */
  lemma {:induction false} MoreIsABit(frame: R.Frame, high: nat, low: nat, bit: nat)
    requires frame.flags as int == 64 * high + 32 * bit + low && low < 32 && bit < 2
    ensures More(frame) <==> bit == 1
  {
    assert frame.flags as int / 32 == 2 * high + bit;
  }

  /** The bytes and the frames that are held back, of all responses together and of the one that this frame
      belongs to. */
  function HeldBytes(open: Open): nat {
    Total(BytesByKey(open))
  }

  function HeldFrames(open: Open): nat {
    Total(FramesByKey(open))
  }

  function OwnBytes(open: Open, frame: R.Frame): nat {
    |Concat(BodiesOf(open, KeyOf(frame)))|
  }

  lemma {:induction false} OwnIsHeld(open: Open, key: Key)
    ensures |Concat(BodiesOf(open, key))| <= HeldBytes(open) && |BodiesOf(open, key)| <= HeldFrames(open)
  {
    hide Total;
    NothingHeld();
    if key in open {
      TotalWithout(BytesByKey(open), key);
      TotalWithout(FramesByKey(open), key);
    }
  }

  /** A frame that begins or continues a response in parts is refused exactly when with it the parts held
      back would be too many bytes or frames, or its own response would be too large; a response in one
      frame never is. Nothing is held back of a refused frame, and a refusal changes nothing. */
  lemma {:induction false} RefusesExactly(open: Open, frame: R.Frame, limits: Limits)
    ensures var (after, result) := Assemble(open, frame, limits);
            && (result.Failure?
                <==> && (More(frame) || KeyOf(frame) in open)
                     && (|| HeldBytes(open) + |frame.body| > limits.maxChunkBytes
                         || HeldFrames(open) + 1 > limits.maxChunkFrames
                         || OwnBytes(open, frame) + |frame.body| > limits.maxResponseBytes))
            && (result.Failure? ==> after == open)
            && (!More(frame) && KeyOf(frame) !in open ==> after == open && result == Success(Some(frame)))
  {
    OwnIsHeld(open, KeyOf(frame));
    hide Total, BytesByKey, FramesByKey, Concat, BodiesOf, KeyOf, More;
  }

  // ----- What is held back, told of the frames that have arrived -----

  /** The number of frames of a response that has begun and not ended. */
  function PartFrames(events: seq<Event>, k: Key): nat {
    if events == [] then 0
    else
      match events[|events| - 1]
      case Discarded(id) => if id == k.requestId then 0 else PartFrames(events[..|events| - 1], k)
      case Arrived(frame) =>
        if KeyOf(frame) != k then PartFrames(events[..|events| - 1], k)
        else if More(frame) then PartFrames(events[..|events| - 1], k) + 1
        else 0
  }

  lemma {:induction false} PartsAfter(open: Open, frame: R.Frame, limits: Limits, k: Key)
    requires Assemble(open, frame, limits).1.Success?
    ensures |BodiesOf(Assemble(open, frame, limits).0, k)|
         == if KeyOf(frame) != k then |BodiesOf(open, k)| else if More(frame) then |BodiesOf(open, k)| + 1 else 0
  {
    hide WithinLimits, Concat, More;
  }

  /** The frames held back for a response are those that have arrived since it began. */
  lemma {:induction false} HeldFramesArrived(events: seq<Event>, limits: Limits, k: Key)
    ensures !Run(events, limits).failed ==> |BodiesOf(Run(events, limits).open, k)| == PartFrames(events, k)
    decreases |events|
  {
    if events != [] {
      var before, e := events[..|events| - 1], events[|events| - 1];
      HeldFramesArrived(before, limits, k);
      hide Assemble, More;
      var open := Run(before, limits).open;
      if e.Arrived? && Assemble(open, e.frame, limits).1.Success? { PartsAfter(open, e.frame, limits, k); }
    }
  }
}
