/** Reassembly of responses that arrive in several frames, interleaved with one another. */
module ChunkAssembly {
  import opened Wrappers
  import opened Bytes
  import opened ReceiveStream

  const FLAG_MORE_CHUNKS := 32

  /** Frames belong together when they agree on all three. */
  datatype Key = Key(requestId: nat, opcode: nat, laneId: nat)

  datatype Limits = Limits(maxChunkBytes: nat, maxChunkFrames: nat, maxResponseBytes: nat)

  function KeyOf(frame: Frame): Key {
    Key(frame.requestId, frame.opcode, frame.laneId)
  }

  predicate More(frame: Frame) {
    (frame.flags as int / FLAG_MORE_CHUNKS) % 2 == 1
  }

  function Concat(bodies: seq<seq<byte>>): seq<byte> {
    if bodies == [] then [] else Concat(bodies[..|bodies| - 1]) + bodies[|bodies| - 1]
  }

  lemma {:induction false} ConcatOneMore(bodies: seq<seq<byte>>, body: seq<byte>)
    ensures Concat(bodies + [body]) == Concat(bodies) + body
  {
    assert (bodies + [body])[..|bodies|] == bodies;
  }

  // ----- Totals -----

  /** One slot for each unit that the map counts. */
  function Slots(counts: map<Key, nat>): set<(Key, nat)> {
    set k, i: nat | k in counts && i < counts[k] :: (k, i)
  }

  /** The sum of the counts of all keys. */
  function Total(counts: map<Key, nat>): nat {
    |Slots(counts)|
  }

  function SlotsOf(k: Key, n: nat): set<(Key, nat)> {
    set i: nat | i < n :: (k, i)
  }

  lemma {:induction false} SlotsOfSize(k: Key, n: nat)
    ensures |SlotsOf(k, n)| == n
  {
    if n > 0 {
      SlotsOfSize(k, n - 1);
      assert SlotsOf(k, n) == SlotsOf(k, n - 1) + {(k, n - 1)};
    }
  }

  lemma {:induction false} TotalWithout(counts: map<Key, nat>, k: Key)
    requires k in counts
    ensures Total(counts - {k}) == Total(counts) - counts[k]
    ensures counts[k] <= Total(counts)
  {
    SlotsOfSize(k, counts[k]);
    assert Slots(counts) == Slots(counts - {k}) + SlotsOf(k, counts[k]);
    assert Slots(counts - {k}) !! SlotsOf(k, counts[k]);
  }

  lemma {:induction false} TotalWith(counts: map<Key, nat>, k: Key, n: nat)
    ensures Total(counts[k := n]) == Total(counts) - (if k in counts then counts[k] else 0) + n
  {
    if k in counts { TotalWithout(counts, k); }
    SlotsOfSize(k, n);
    assert counts[k := n] - {k} == counts - {k};
    assert k !in counts ==> counts - {k} == counts;
    TotalWithout(counts[k := n], k);
  }

  // ----- The assembler -----

  /** The bodies gathered for each response that has begun and not ended. */
  type Open = map<Key, seq<seq<byte>>>

  function BytesByKey(open: Open): map<Key, nat> {
    map k | k in open :: |Concat(open[k])|
  }

  function FramesByKey(open: Open): map<Key, nat> {
    map k | k in open :: |open[k]|
  }

  function BodiesOf(open: Open, k: Key): seq<seq<byte>> {
    if k in open then open[k] else []
  }

  predicate WithinLimits(open: Open, frame: Frame, limits: Limits) {
    var bodies := BodiesOf(open, KeyOf(frame));
    var bytes, frames := |Concat(bodies)| + |frame.body|, |bodies| + 1;
    && bytes <= limits.maxChunkBytes && frames <= limits.maxChunkFrames && bytes <= limits.maxResponseBytes
    && Total(BytesByKey(open)) + |frame.body| <= limits.maxChunkBytes
    && Total(FramesByKey(open)) + 1 <= limits.maxChunkFrames
  }

  /** What becomes of a frame: an error, a complete response, or nothing yet. A response that comes
      in one frame passes through, whatever its size. */
  function Assemble(open: Open, frame: Frame, limits: Limits): (Open, Result<Option<Frame>, ()>) {
    var key := KeyOf(frame);
    if !More(frame) && key !in open then (open, Success(Some(frame)))
    else if !WithinLimits(open, frame, limits) then (open, Failure(()))
    else
      var bodies := BodiesOf(open, key) + [frame.body];
      if More(frame) then (open[key := bodies], Success(None))
      else (open - {key}, Success(Some(frame.(body := Concat(bodies)))))
  }

  function WithoutRequest(open: Open, requestId: nat): Open {
    map k | k in open && k.requestId != requestId :: open[k]
  }

  function OfRequest(open: Open, requestId: nat): Open {
    map k | k in open && k.requestId == requestId :: open[k]
  }

  /** At any time what is held back is within the limits. */
  ghost predicate Bounded(open: Open, limits: Limits) {
    Total(BytesByKey(open)) <= limits.maxChunkBytes && Total(FramesByKey(open)) <= limits.maxChunkFrames
  }

  /** The counters after gathering one more body. */
  lemma {:induction false} GatherCounts(open: Open, key: Key, body: seq<byte>)
    ensures var bodies := BodiesOf(open, key) + [body];
            && BytesByKey(open[key := bodies]) == BytesByKey(open)[key := |Concat(BodiesOf(open, key))| + |body|]
            && FramesByKey(open[key := bodies]) == FramesByKey(open)[key := |BodiesOf(open, key)| + 1]
            && Total(BytesByKey(open[key := bodies])) == Total(BytesByKey(open)) + |body|
            && Total(FramesByKey(open[key := bodies])) == Total(FramesByKey(open)) + 1
  {
    var bodies := BodiesOf(open, key) + [body];
    ConcatOneMore(BodiesOf(open, key), body);
    hide Total, Concat;
    TotalWith(BytesByKey(open), key, |Concat(bodies)|);
    TotalWith(FramesByKey(open), key, |bodies|);
    assert BytesByKey(open[key := bodies]) == BytesByKey(open)[key := |Concat(bodies)|];
    assert FramesByKey(open[key := bodies]) == FramesByKey(open)[key := |bodies|];
    assert key !in open ==> |Concat(BodiesOf(open, key))| == 0 by { NothingHeld(); }
  }

  lemma NothingHeld()
    ensures Concat([]) == []
  {
  }

  lemma {:induction false} ReleaseCounts(open: Open, key: Key)
    requires key in open
    ensures BytesByKey(open - {key}) == BytesByKey(open) - {key} && FramesByKey(open - {key}) == FramesByKey(open) - {key}
    ensures Total(BytesByKey(open - {key})) == Total(BytesByKey(open)) - |Concat(open[key])|
    ensures Total(FramesByKey(open - {key})) == Total(FramesByKey(open)) - |open[key]|
  {
    TotalWithout(BytesByKey(open), key);
    TotalWithout(FramesByKey(open), key);
    assert BytesByKey(open - {key}) == BytesByKey(open) - {key};
    assert FramesByKey(open - {key}) == FramesByKey(open) - {key};
  }

  lemma {:induction false} AssembleKeepsBounded(open: Open, frame: Frame, limits: Limits)
    requires Bounded(open, limits)
    ensures Bounded(Assemble(open, frame, limits).0, limits)
  {
    hide Total, BytesByKey, FramesByKey, Concat;
    GatherCounts(open, KeyOf(frame), frame.body);
    if KeyOf(frame) in open { ReleaseCounts(open, KeyOf(frame)); }
  }

  // ----- Runs -----

  datatype Event = Arrived(frame: Frame) | Discarded(requestId: nat)

  datatype State = State(open: Open, outputs: seq<Frame>, failed: bool)

  const INITIAL := State(map[], [], false)

  function After(s: State, e: Event, limits: Limits): State {
    if s.failed then s
    else
      match e
      case Discarded(id) => s.(open := WithoutRequest(s.open, id))
      case Arrived(frame) =>
        var (open, result) := Assemble(s.open, frame, limits);
        match result
        case Failure(_) => s.(failed := true)
        case Success(None) => s.(open := open)
        case Success(Some(output)) => s.(open := open, outputs := s.outputs + [output])
  }

  function Run(events: seq<Event>, limits: Limits): State {
    if events == [] then INITIAL else After(Run(events[..|events| - 1], limits), events[|events| - 1], limits)
  }

  /** The responses of one key, from that key's frames alone: each is the concatenation of the
      bodies up to a frame without more to come. The second part is what is still open. */
  function Responses(events: seq<Event>, k: Key): (seq<seq<byte>>, seq<byte>) {
    if events == [] then ([], [])
    else
      var (complete, partial) := Responses(events[..|events| - 1], k);
      match events[|events| - 1]
      case Discarded(id) => (complete, if id == k.requestId then [] else partial)
      case Arrived(frame) =>
        if KeyOf(frame) != k then (complete, partial)
        else if More(frame) then (complete, partial + frame.body)
        else (complete + [partial + frame.body], [])
  }

  function BodiesFor(outputs: seq<Frame>, k: Key): seq<seq<byte>> {
    if outputs == [] then []
    else
      var last := outputs[|outputs| - 1];
      BodiesFor(outputs[..|outputs| - 1], k) + if KeyOf(last) == k then [last.body] else []
  }

  lemma {:induction false} BodiesForOneMore(outputs: seq<Frame>, output: Frame, k: Key)
    ensures BodiesFor(outputs + [output], k) == BodiesFor(outputs, k) + if KeyOf(output) == k then [output.body] else []
  {
    assert (outputs + [output])[..|outputs|] == outputs;
  }

  /** However responses are interleaved, each request receives exactly its own: the in-order
      concatenation of the bodies of its own frames, complete ones only; and what is held back is
      within the limits. */
  lemma {:induction false} EachRequestGetsItsOwn(events: seq<Event>, limits: Limits, k: Key)
    ensures Bounded(Run(events, limits).open, limits)
    ensures !Run(events, limits).failed ==>
              && BodiesFor(Run(events, limits).outputs, k) == Responses(events, k).0
              && Concat(BodiesOf(Run(events, limits).open, k)) == Responses(events, k).1
    decreases |events|
  {
    if events == [] {
      assert BytesByKey(INITIAL.open) == map[] && FramesByKey(INITIAL.open) == map[];
      assert Slots(map[]) == {};
    } else {
      var before, e := events[..|events| - 1], events[|events| - 1];
      EachRequestGetsItsOwn(before, limits, k);
      var s := Run(before, limits);
      if !s.failed {
        match e
        case Discarded(id) => DiscardKeepsBounded(s.open, id, limits);
        case Arrived(frame) =>
          AssembleKeepsBounded(s.open, frame, limits);
          if Assemble(s.open, frame, limits).1.Success? { ArrivalStep(s.open, s.outputs, frame, limits, k); }
      }
    }
  }

  lemma {:induction false} ArrivalStep(open: Open, outputs: seq<Frame>, frame: Frame, limits: Limits, k: Key)
    requires Assemble(open, frame, limits).1.Success?
    ensures var (after, result) := Assemble(open, frame, limits);
            var partial := Concat(BodiesOf(open, k));
            && (KeyOf(frame) != k ==> BodiesOf(after, k) == BodiesOf(open, k))
            && (KeyOf(frame) == k ==> Concat(BodiesOf(after, k)) == if More(frame) then partial + frame.body else [])
            && (result.value.None? <==> More(frame))
            && (result.value.Some? ==>
                  && KeyOf(result.value.value) == KeyOf(frame)
                  && BodiesFor(outputs + [result.value.value], k)
                     == BodiesFor(outputs, k) + if KeyOf(frame) == k then [partial + frame.body] else [])
  {
    ConcatOneMore(BodiesOf(open, k), frame.body);
    var result := Assemble(open, frame, limits).1;
    if result.value.Some? { BodiesForOneMore(outputs, result.value.value, k); }
    assert [] + frame.body == frame.body;
  }

  lemma {:induction false} DiscardKeepsBounded(open: Open, requestId: nat, limits: Limits)
    requires Bounded(open, limits)
    ensures Bounded(WithoutRequest(open, requestId), limits)
  {
    var left := WithoutRequest(open, requestId);
    SubsetTotal(BytesByKey(left), BytesByKey(open));
    SubsetTotal(FramesByKey(left), FramesByKey(open));
  }

  lemma {:induction false} SubsetTotal(a: map<Key, nat>, b: map<Key, nat>)
    requires forall k | k in a :: k in b && a[k] == b[k]
    ensures Total(a) <= Total(b)
  {
    assert Slots(a) <= Slots(b);
    SubsetSize(Slots(a), Slots(b));
  }

  lemma {:induction false} SubsetSize<T>(a: set<T>, b: set<T>)
    requires a <= b
    ensures |a| <= |b|
  {
    assert b == a + (b - a);
  }
}
