/** The write queue of one connection, as values: frames that the socket would not take yet, in
    call order, and the log of frames it has taken. */
module WriteQueueModel {

  type Frame = seq<bv8>

  datatype Job = Job(requestId: nat, frame: Frame)

  /** What a call of `socket.write` does: it takes the frame, takes it and asks to stop, or throws. */
  datatype Reply = Accepted | AcceptedFull | Threw

  /** The socket as the environment: the reply to its n-th write call. */
  type Socket = nat -> Reply

  datatype Reason = Unsent | QueueFull

  datatype Rejection = Rejection(requestId: nat, reason: Reason)

  /** `calls` counts socket writes, `handed` logs the accepted frames, `offered` every frame ever
      passed to `write`. */
  datatype Writes = Writes(queue: seq<Job>, blocked: bool, calls: nat, handed: seq<Job>, offered: seq<Job>)

  function BytesOf(queue: seq<Job>): nat {
    if queue == [] then 0 else |queue[0].frame| + BytesOf(queue[1..])
  }

  predicate Holds(queue: seq<Job>, id: nat) {
    exists i | 0 <= i < |queue| :: queue[i].requestId == id
  }

  predicate DistinctIds(queue: seq<Job>) {
    forall i, j | 0 <= i < j < |queue| :: queue[i].requestId != queue[j].requestId
  }

  // ----- The operations -----

  /** Hand one frame to the socket. */
  function Send(w: Writes, socket: Socket, job: Job): (Writes, seq<Rejection>) {
    var next := w.(calls := w.calls + 1);
    match socket(w.calls)
    case Accepted => (next.(handed := w.handed + [job]), [])
    case AcceptedFull => (next.(handed := w.handed + [job], blocked := true), [])
    case Threw => (next, [Rejection(job.requestId, Unsent)])
  }

  function Write(w: Writes, socket: Socket, job: Job, maxBytes: nat): (Writes, seq<Rejection>) {
    var o := w.(offered := w.offered + [job]);
    if !w.blocked then Send(o, socket, job)
    else if |job.frame| > maxBytes - BytesOf(w.queue) then (o, [Rejection(job.requestId, QueueFull)])
    else (o.(queue := w.queue + [job]), [])
  }

  function WithoutId(queue: seq<Job>, id: nat): (r: seq<Job>)
    ensures |r| <= |queue|
  {
    if queue == [] then []
    else if queue[0].requestId == id then WithoutId(queue[1..], id)
    else [queue[0]] + WithoutId(queue[1..], id)
  }

  function Cancel(w: Writes, id: nat): Writes {
    w.(queue := WithoutId(w.queue, id))
  }

  function Clear(w: Writes): Writes {
    w.(queue := [], blocked := false)
  }

  /** Write queued frames until the socket blocks again; frames whose request is no longer
      pending are dropped. */
  function FlushFrom(w: Writes, socket: Socket, pending: set<nat>): (Writes, seq<Rejection>)
    decreases |w.queue|
  {
    if w.blocked || w.queue == [] then (w, [])
    else
      var job, rest := w.queue[0], w.(queue := w.queue[1..]);
      if job.requestId in pending then
        var (sent, rejected) := Send(rest, socket, job);
        var (done, more) := FlushFrom(sent, socket, pending);
        (done, rejected + more)
      else FlushFrom(rest, socket, pending)
  }

  function Flush(w: Writes, socket: Socket, closed: bool, pending: set<nat>): (Writes, seq<Rejection>) {
    if closed then (Clear(w), []) else FlushFrom(w.(blocked := false), socket, pending)
  }

  function UnsentRejections(queue: seq<Job>): (r: seq<Rejection>)
    ensures |r| == |queue|
    ensures forall i | 0 <= i < |queue| :: r[i] == Rejection(queue[i].requestId, Unsent)
  {
    seq(|queue|, i requires 0 <= i < |queue| => Rejection(queue[i].requestId, Unsent))
  }

  /** Reject every queued request as unsent and drop its frame. */
  function RejectQueued(w: Writes): (Writes, seq<Rejection>) {
    (w.(queue := []), UnsentRejections(w.queue))
  }

  datatype Operation = WriteOp(job: Job) | CancelOp(id: nat) | FlushOp(closed: bool, pending: set<nat>)
                     | RejectQueuedOp | ClearOp

  function Apply(w: Writes, socket: Socket, maxBytes: nat, op: Operation): (Writes, seq<Rejection>) {
    match op
    case WriteOp(job) => Write(w, socket, job, maxBytes)
    case CancelOp(id) => (Cancel(w, id), [])
    case FlushOp(closed, pending) => Flush(w, socket, closed, pending)
    case RejectQueuedOp => RejectQueued(w)
    case ClearOp => (Clear(w), [])
  }

  const INITIAL := Writes([], false, 0, [], [])

  // ----- The invariant -----

  /** `a` is what is left of `b` after leaving some elements out. */
  predicate IsSubsequence<T(==)>(a: seq<T>, b: seq<T>) {
    if a == [] then true
    else if b == [] then false
    else if a[|a| - 1] == b[|b| - 1] && IsSubsequence(a[..|a| - 1], b[..|b| - 1]) then true
    else IsSubsequence(a, b[..|b| - 1])
  }

  ghost predicate Valid(w: Writes, maxBytes: nat) {
    && (!w.blocked ==> w.queue == [])
    && BytesOf(w.queue) <= maxBytes
    && IsSubsequence(w.handed + w.queue, w.offered)
  }

  lemma {:induction false} SubsequenceSkips<T>(a: seq<T>, b: seq<T>, c: seq<T>)
    requires IsSubsequence(a, b)
    ensures IsSubsequence(a, b + c)
    decreases |c|
  {
    if c == [] {
      assert b + c == b;
    } else {
      SubsequenceSkips(a, b, c[..|c| - 1]);
      assert (b + c)[..|b + c| - 1] == b + c[..|c| - 1];
    }
  }

  lemma {:induction false} SubsequenceKeeps<T>(a: seq<T>, b: seq<T>, x: T)
    requires IsSubsequence(a, b)
    ensures IsSubsequence(a + [x], b + [x])
  {
    assert (a + [x])[..|a|] == a && (b + [x])[..|b|] == b;
  }

  lemma {:induction false} SubsequenceLength<T>(a: seq<T>, b: seq<T>)
    requires IsSubsequence(a, b)
    ensures |a| <= |b|
    decreases |b|
  {
    if a != [] && b != [] {
      if a[|a| - 1] == b[|b| - 1] && IsSubsequence(a[..|a| - 1], b[..|b| - 1]) {
        SubsequenceLength(a[..|a| - 1], b[..|b| - 1]);
      } else {
        SubsequenceLength(a, b[..|b| - 1]);
      }
    }
  }

  /** Leaving one more element out. */
  lemma {:induction false} SubsequenceDrops<T>(a: seq<T>, x: T, c: seq<T>, b: seq<T>)
    requires IsSubsequence(a + [x] + c, b)
    ensures IsSubsequence(a + c, b)
    decreases |b|
  {
    var whole := a + [x] + c;
    if a + c != [] {
      var init := b[..|b| - 1];
      if whole[|whole| - 1] == b[|b| - 1] && IsSubsequence(whole[..|whole| - 1], init) {
        if c == [] {
          assert whole[..|whole| - 1] == a && a + c == a;
          SubsequenceSkips(a, init, [b[|b| - 1]]);
          assert init + [b[|b| - 1]] == b;
        } else {
          assert whole[..|whole| - 1] == a + [x] + c[..|c| - 1];
          SubsequenceDrops(a, x, c[..|c| - 1], init);
          assert (a + c)[..|a + c| - 1] == a + c[..|c| - 1];
        }
      } else {
        SubsequenceDrops(a, x, c, init);
      }
    }
  }

  lemma {:induction false} WithoutIdBytes(queue: seq<Job>, id: nat)
    ensures BytesOf(WithoutId(queue, id)) <= BytesOf(queue)
  {
    if queue != [] { WithoutIdBytes(queue[1..], id); }
  }

  lemma Regroup(front: seq<Job>, queue: seq<Job>)
    requires queue != []
    ensures front + queue == front + [queue[0]] + queue[1..]
  {
  }

  lemma {:induction false} WithoutIdDrops(front: seq<Job>, queue: seq<Job>, id: nat, offered: seq<Job>)
    requires IsSubsequence(front + queue, offered)
    ensures IsSubsequence(front + WithoutId(queue, id), offered)
    decreases |queue|
  {
    if queue != [] {
      Regroup(front, queue);
      if queue[0].requestId == id {
        SubsequenceDrops(front, queue[0], queue[1..], offered);
        WithoutIdDrops(front, queue[1..], id, offered);
      } else {
        WithoutIdDrops(front + [queue[0]], queue[1..], id, offered);
        Regroup(front, WithoutId(queue, id));
        assert WithoutId(queue, id)[1..] == WithoutId(queue[1..], id);
      }
    }
  }

  lemma {:induction false} DropAll(front: seq<Job>, queue: seq<Job>, offered: seq<Job>)
    requires IsSubsequence(front + queue, offered)
    ensures IsSubsequence(front, offered)
    decreases |queue|
  {
    if queue == [] {
      assert front + queue == front;
    } else {
      assert front + queue == front + [queue[0]] + queue[1..];
      SubsequenceDrops(front, queue[0], queue[1..], offered);
      DropAll(front, queue[1..], offered);
    }
  }

  lemma {:induction false} BytesConcat(a: seq<Job>, b: seq<Job>)
    ensures BytesOf(a + b) == BytesOf(a) + BytesOf(b)
  {
    if a == [] {
      assert a + b == b;
    } else {
      assert (a + b)[1..] == a[1..] + b;
      BytesConcat(a[1..], b);
    }
  }

  /** One more frame offered: left out, waiting at the end, or handed over when none waits. */
  lemma {:induction false} OfferKeepsOrder(handed: seq<Job>, queue: seq<Job>, job: Job, offered: seq<Job>)
    requires IsSubsequence(handed + queue, offered)
    ensures IsSubsequence(handed + queue, offered + [job]) && IsSubsequence(handed + (queue + [job]), offered + [job])
    ensures queue == [] ==> IsSubsequence(handed + [job] + queue, offered + [job])
  {
    SubsequenceKeeps(handed + queue, offered, job);
    SubsequenceSkips(handed + queue, offered, [job]);
    hide IsSubsequence;
    assert handed + queue + [job] == handed + (queue + [job]);
    if queue == [] { assert handed + [job] + queue == handed + queue + [job]; }
  }

  lemma {:induction false} WriteKeepsValid(w: Writes, socket: Socket, maxBytes: nat, job: Job)
    requires Valid(w, maxBytes)
    ensures Valid(Write(w, socket, job, maxBytes).0, maxBytes)
  {
    hide IsSubsequence;
    OfferKeepsOrder(w.handed, w.queue, job, w.offered);
    BytesConcat(w.queue, [job]);
  }

  lemma {:induction false} FlushKeepsValid(w: Writes, socket: Socket, maxBytes: nat, pending: set<nat>)
    requires BytesOf(w.queue) <= maxBytes && IsSubsequence(w.handed + w.queue, w.offered)
    ensures Valid(FlushFrom(w, socket, pending).0, maxBytes)
    decreases |w.queue|
  {
    if !w.blocked && w.queue != [] {
      var job, rest := w.queue[0], w.(queue := w.queue[1..]);
      var next := if job.requestId in pending then Send(rest, socket, job).0 else rest;
      assert w.queue == [job] + rest.queue;
      PopKeepsOrder(w.handed, job, rest.queue, w.offered);
      FlushKeepsValid(next, socket, maxBytes, pending);
    }
  }

  lemma {:induction false} PopKeepsOrder(handed: seq<Job>, job: Job, rest: seq<Job>, offered: seq<Job>)
    requires IsSubsequence(handed + ([job] + rest), offered)
    ensures IsSubsequence(handed + [job] + rest, offered) && IsSubsequence(handed + rest, offered)
  {
    assert handed + ([job] + rest) == handed + [job] + rest;
    SubsequenceDrops(handed, job, rest, offered);
  }

  /** In every state: frames wait only while the socket is blocked, never more bytes than
      allowed; and the accepted frames followed by the waiting ones are the frames passed to
      `write`, in call order, with some left out. */
  lemma {:induction false} OperationKeepsValid(w: Writes, socket: Socket, maxBytes: nat, op: Operation)
    requires Valid(w, maxBytes)
    ensures Valid(Apply(w, socket, maxBytes, op).0, maxBytes)
  {
    match op
    case WriteOp(job) => WriteKeepsValid(w, socket, maxBytes, job);
    case CancelOp(id) =>
      WithoutIdDrops(w.handed, w.queue, id, w.offered);
      WithoutIdBytes(w.queue, id);
    case FlushOp(closed, pending) =>
      if closed { ClearKeepsValid(w, maxBytes); } else { FlushKeepsValid(w.(blocked := false), socket, maxBytes, pending); }
    case RejectQueuedOp => ClearKeepsValid(w, maxBytes);
    case ClearOp => ClearKeepsValid(w, maxBytes);
  }

  lemma {:induction false} ClearKeepsValid(w: Writes, maxBytes: nat)
    requires Valid(w, maxBytes)
    ensures Valid(Clear(w), maxBytes) && Valid(w.(queue := []), maxBytes)
  {
    DropAll(w.handed, w.queue, w.offered);
    assert w.handed + [] == w.handed;
  }

  function Run(w: Writes, socket: Socket, maxBytes: nat, ops: seq<Operation>): Writes
    decreases |ops|
  {
    if ops == [] then w else Run(Apply(w, socket, maxBytes, ops[0]).0, socket, maxBytes, ops[1..])
  }

  /** Over every run: frames reach the socket in the order of the `write` calls, each at most
      once, and the queue never holds more bytes than its limit. */
  lemma {:induction false} RunsKeepCallOrder(w: Writes, socket: Socket, maxBytes: nat, ops: seq<Operation>)
    requires Valid(w, maxBytes)
    ensures Valid(Run(w, socket, maxBytes, ops), maxBytes)
    ensures IsSubsequence(Run(w, socket, maxBytes, ops).handed, Run(w, socket, maxBytes, ops).offered)
    ensures |Run(w, socket, maxBytes, ops).handed| <= |Run(w, socket, maxBytes, ops).offered|
    decreases |ops|
  {
    if ops == [] {
      DropAll(w.handed, w.queue, w.offered);
      SubsequenceLength(w.handed, w.offered);
    } else {
      OperationKeepsValid(w, socket, maxBytes, ops[0]);
      RunsKeepCallOrder(Apply(w, socket, maxBytes, ops[0]).0, socket, maxBytes, ops[1..]);
    }
  }

  // ----- Cancelled frames stay away from the socket -----

  lemma {:induction false} HoldsTail(queue: seq<Job>, id: nat)
    requires queue != []
    ensures Holds(queue, id) <==> queue[0].requestId == id || Holds(queue[1..], id)
  {
    if Holds(queue, id) {
      var i :| 0 <= i < |queue| && queue[i].requestId == id;
      if i > 0 { assert queue[1..][i - 1].requestId == id; }
    }
    if Holds(queue[1..], id) {
      var i :| 0 <= i < |queue| - 1 && queue[1..][i].requestId == id;
      assert queue[i + 1].requestId == id;
    }
  }

  lemma {:induction false} WithoutIdHolds(queue: seq<Job>, id: nat, other: nat)
    ensures Holds(WithoutId(queue, id), other) <==> Holds(queue, other) && other != id
  {
    if queue != [] {
      WithoutIdHolds(queue[1..], id, other);
      HoldsTail(queue, other);
      if queue[0].requestId != id {
        HoldsTail(WithoutId(queue, id), other);
        assert WithoutId(queue, id)[1..] == WithoutId(queue[1..], id);
      }
    }
  }

  lemma {:induction false} FlushHandsOnlyQueued(w: Writes, socket: Socket, pending: set<nat>, id: nat)
    requires !Holds(w.queue, id)
    ensures !Holds(FlushFrom(w, socket, pending).0.queue, id)
    ensures Holds(FlushFrom(w, socket, pending).0.handed, id) ==> Holds(w.handed, id)
    decreases |w.queue|
  {
    if !w.blocked && w.queue != [] {
      var job, rest := w.queue[0], w.(queue := w.queue[1..]);
      HoldsTail(w.queue, id);
      if job.requestId in pending {
        var sent := Send(rest, socket, job).0;
        FlushHandsOnlyQueued(sent, socket, pending, id);
      } else {
        FlushHandsOnlyQueued(rest, socket, pending, id);
      }
    }
  }

  /** A frame that is not queued, because it was cancelled, rejected or never enqueued, cannot
      reach the socket by any operation except a new `write` for its request. */
  lemma {:induction false} NotQueuedNeverHanded(w: Writes, socket: Socket, maxBytes: nat, op: Operation, id: nat)
    requires !Holds(w.queue, id) && !(op.WriteOp? && op.job.requestId == id)
    ensures !Holds(Apply(w, socket, maxBytes, op).0.queue, id)
    ensures Holds(Apply(w, socket, maxBytes, op).0.handed, id) ==> Holds(w.handed, id)
  {
    match op
    case WriteOp(job) =>
      var r := Write(w, socket, job, maxBytes).0;
      assert forall i | 0 <= i < |r.queue| :: r.queue[i].requestId == id ==> i < |w.queue|;
      assert forall i | 0 <= i < |r.handed| :: r.handed[i].requestId == id ==> i < |w.handed|;
    case CancelOp(c) => WithoutIdHolds(w.queue, c, id);
    case FlushOp(closed, pending) =>
      if !closed { FlushHandsOnlyQueued(w.(blocked := false), socket, pending, id); }
    case RejectQueuedOp =>
    case ClearOp =>
  }

  lemma {:induction false} CancelledNeverHanded(w: Writes, socket: Socket, maxBytes: nat, id: nat, ops: seq<Operation>)
    requires forall i | 0 <= i < |ops| :: !(ops[i].WriteOp? && ops[i].job.requestId == id)
    ensures Holds(Run(Cancel(w, id), socket, maxBytes, ops).handed, id) ==> Holds(w.handed, id)
  {
    WithoutIdHolds(w.queue, id, id);
    StaysAway(Cancel(w, id), socket, maxBytes, id, ops);
  }

  lemma {:induction false} StaysAway(w: Writes, socket: Socket, maxBytes: nat, id: nat, ops: seq<Operation>)
    requires !Holds(w.queue, id)
    requires forall i | 0 <= i < |ops| :: !(ops[i].WriteOp? && ops[i].job.requestId == id)
    ensures Holds(Run(w, socket, maxBytes, ops).handed, id) ==> Holds(w.handed, id)
    decreases |ops|
  {
    if ops != [] {
      NotQueuedNeverHanded(w, socket, maxBytes, ops[0], id);
      StaysAway(Apply(w, socket, maxBytes, ops[0]).0, socket, maxBytes, id, ops[1..]);
    }
  }
}
