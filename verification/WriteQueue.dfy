/** The write queue as it updates its array, its counters and its tombstones; each method is
    proved to do what the operation of the same name does to the model. */
module WriteQueue {
  import opened Wrappers
  import M = WriteQueueModel

  const COMPACTION_THRESHOLD := 1024

  /** A queue slot; its frame is taken away when the write is cancelled or performed. */
  datatype QueuedWrite = QueuedWrite(bytes: nat, frame: Option<M.Frame>, requestId: nat)

  /** The frames still to be written, in order. */
  function Live(slots: seq<QueuedWrite>): (r: seq<M.Job>)
    ensures |r| <= |slots|
  {
    if slots == [] then []
    else if slots[0].frame.Some? then [M.Job(slots[0].requestId, slots[0].frame.value)] + Live(slots[1..])
    else Live(slots[1..])
  }

  function RequestsOf(queue: seq<M.Job>): set<nat> {
    set i | 0 <= i < |queue| :: queue[i].requestId
  }

  /** Slots remember the size of their frame. */
  predicate Sized(slots: seq<QueuedWrite>) {
    forall i | 0 <= i < |slots| && slots[i].frame.Some? :: |slots[i].frame.value| == slots[i].bytes
  }

  /** Every counter and the index by request agree with the slots from the head on. */
  ghost predicate Consistent(slots: seq<QueuedWrite>, head: nat, byRequest: set<nat>, bytes: nat, tombstones: nat) {
    && head <= |slots| && Sized(slots[head..])
    && Counted(Live(slots[head..]), byRequest, bytes)
    && tombstones == |slots| - head - |Live(slots[head..])|
  }

  ghost predicate Counted(live: seq<M.Job>, byRequest: set<nat>, bytes: nat) {
    M.DistinctIds(live) && byRequest == RequestsOf(live) && bytes == M.BytesOf(live)
  }

  lemma {:induction false} LiveConcat(a: seq<QueuedWrite>, b: seq<QueuedWrite>)
    ensures Live(a + b) == Live(a) + Live(b)
  {
    if a == [] {
      assert a + b == b;
    } else {
      assert (a + b)[1..] == a[1..] + b;
      LiveConcat(a[1..], b);
    }
  }

  lemma {:induction false} WithoutIdConcat(a: seq<M.Job>, b: seq<M.Job>, id: nat)
    ensures M.WithoutId(a + b, id) == M.WithoutId(a, id) + M.WithoutId(b, id)
  {
    if a == [] {
      assert a + b == b;
    } else {
      assert (a + b)[1..] == a[1..] + b;
      WithoutIdConcat(a[1..], b, id);
    }
  }

  lemma {:induction false} WithoutAbsent(queue: seq<M.Job>, id: nat)
    requires !M.Holds(queue, id)
    ensures M.WithoutId(queue, id) == queue
  {
    if queue != [] {
      M.HoldsTail(queue, id);
      assert queue[0].requestId != id;
      WithoutAbsent(queue[1..], id);
    }
  }

  /** Taking one job out of a queue of distinct requests. */
  lemma {:induction false} RemoveOne(a: seq<M.Job>, job: M.Job, b: seq<M.Job>, byRequest: set<nat>, bytes: nat)
    requires Counted(a + [job] + b, byRequest, bytes)
    ensures M.WithoutId(a + [job] + b, job.requestId) == a + b
    ensures |job.frame| <= bytes && job.requestId in byRequest
    ensures Counted(a + b, byRequest - {job.requestId}, bytes - |job.frame|)
  {
    var whole := a + [job] + b;
    assert whole[|a|] == job;
    forall i | 0 <= i < |a|
      ensures a[i].requestId != job.requestId
    {
      assert whole[i] == a[i];
    }
    forall i | 0 <= i < |b|
      ensures b[i].requestId != job.requestId
    {
      assert whole[|a| + 1 + i] == b[i];
    }
    WithoutIdConcat(a + [job], b, job.requestId);
    WithoutIdConcat(a, [job], job.requestId);
    WithoutAbsent(a, job.requestId);
    WithoutAbsent(b, job.requestId);
    assert [job][1..] == [];
    M.BytesConcat(a + [job], b);
    M.BytesConcat(a, [job]);
    M.BytesConcat(a, b);
    RemoveOneDistinct(a, job, b);
  }

  lemma {:induction false} RemoveOneDistinct(a: seq<M.Job>, job: M.Job, b: seq<M.Job>)
    requires M.DistinctIds(a + [job] + b)
    ensures M.DistinctIds(a + b)
    ensures RequestsOf(a + b) == RequestsOf(a + [job] + b) - {job.requestId}
  {
    var whole, rest := a + [job] + b, a + b;
    assert whole[|a|] == job;
    forall i | 0 <= i < |rest|
      ensures rest[i] == whole[if i < |a| then i else i + 1]
    {
    }
    forall id
      ensures id in RequestsOf(rest) <==> id in RequestsOf(whole) && id != job.requestId
    {
      if id in RequestsOf(whole) && id != job.requestId {
        var i :| 0 <= i < |whole| && whole[i].requestId == id;
        assert rest[if i < |a| then i else i - 1] == whole[i];
      }
    }
  }

  lemma {:induction false} PushOne(live: seq<M.Job>, byRequest: set<nat>, bytes: nat, job: M.Job)
    requires Counted(live, byRequest, bytes) && job.requestId !in byRequest
    ensures Counted(live + [job], byRequest + {job.requestId}, bytes + |job.frame|)
  {
    M.BytesConcat(live, [job]);
    assert [job][1..] == [];
    forall i | 0 <= i < |live|
      ensures live[i].requestId in byRequest
    {
    }
    forall id
      ensures id in RequestsOf(live + [job]) <==> id in RequestsOf(live) || id == job.requestId
    {
      if id in RequestsOf(live) {
        var i :| 0 <= i < |live| && live[i].requestId == id;
        assert (live + [job])[i] == live[i];
      }
      assert (live + [job])[|live|] == job;
    }
  }

  /** Find the slot whose frame waits for a request. */
  method FindLive(slots: seq<QueuedWrite>, head: nat, id: nat) returns (i: nat)
    requires head <= |slots| && id in RequestsOf(Live(slots[head..]))
    ensures head <= i < |slots| && slots[i].frame.Some? && slots[i].requestId == id
    ensures Live(slots[head..])
         == Live(slots[head..i]) + [M.Job(id, slots[i].frame.value)] + Live(slots[i + 1..])
  {
    i := head;
    assert slots[head..head] == [];
    while slots[i].frame.None? || slots[i].requestId != id
      invariant head <= i < |slots| && id in RequestsOf(Live(slots[i..]))
      decreases |slots| - i
    {
      LiveHead(slots, i, id);
      i := i + 1;
    }
    SplitAt(slots, head, i);
  }

  lemma {:induction false} LiveHead(slots: seq<QueuedWrite>, i: nat, id: nat)
    requires i < |slots| && id in RequestsOf(Live(slots[i..])) && (slots[i].frame.None? || slots[i].requestId != id)
    ensures i + 1 < |slots| && id in RequestsOf(Live(slots[i + 1..]))
  {
    assert slots[i..][0] == slots[i] && slots[i..][1..] == slots[i + 1..];
    var live := Live(slots[i..]);
    var k :| 0 <= k < |live| && live[k].requestId == id;
    if slots[i].frame.Some? { assert live[1..][k - 1] == live[k]; }
  }

  lemma {:induction false} SplitAt(slots: seq<QueuedWrite>, head: nat, i: nat)
    requires head <= i < |slots|
    ensures Live(slots[head..]) == Live(slots[head..i]) + Live([slots[i]]) + Live(slots[i + 1..])
  {
    assert slots[head..] == slots[head..i] + [slots[i]] + slots[i + 1..];
    LiveConcat(slots[head..i] + [slots[i]], slots[i + 1..]);
    LiveConcat(slots[head..i], [slots[i]]);
  }

  /** Cancelling leaves a tombstone in the slot of the request. */
  method Tombstone(slots: seq<QueuedWrite>, head: nat, byRequest: set<nat>, ghost bytes: nat, ghost tombstones: nat, id: nat)
    returns (left: seq<QueuedWrite>, freed: nat)
    requires Consistent(slots, head, byRequest, bytes, tombstones) && id in byRequest
    ensures freed <= bytes && Consistent(left, head, byRequest - {id}, bytes - freed, tombstones + 1)
    ensures Live(left[head..]) == M.WithoutId(Live(slots[head..]), id)
  {
    hide M.WithoutId;
    var i := FindLive(slots, head, id);
    freed := slots[i].bytes;
    left := slots[i := slots[i].(frame := None)];
    assert left[head..i] == slots[head..i] && left[i + 1..] == slots[i + 1..];
    SplitAt(left, head, i);
    assert slots[head..][i - head] == slots[i];
    assert forall k | 0 <= k < |left| - head :: left[head..][k] == if k == i - head then left[i] else slots[head..][k];
    RemoveOne(Live(slots[head..i]), M.Job(id, slots[i].frame.value), Live(slots[i + 1..]), byRequest, bytes);
    assert Live(left[head..]) == Live(slots[head..i]) + Live(slots[i + 1..]);
  }

  /** Drop the tombstones of an array by moving its live slots to the front. */
  method MoveLiveToFront(slots: seq<QueuedWrite>, head: nat) returns (kept: seq<QueuedWrite>)
    requires head <= |slots| && Sized(slots[head..])
    ensures Live(kept) == Live(slots[head..]) && |kept| == |Live(slots[head..])| && Sized(kept)
  {
    kept := slots;
    var writeIndex := 0;
    ghost var live: seq<QueuedWrite> := [];
    for index := head to |slots|
      invariant |kept| == |slots| && writeIndex == |live| <= index
      invariant forall i | index <= i < |slots| :: kept[i] == slots[i]
      invariant forall i | 0 <= i < writeIndex :: kept[i] == live[i]
      invariant Live(live) == Live(slots[head..index]) && |live| == |Live(live)| && Sized(live)
    {
      LiveOneMore(slots, head, index);
      LiveConcat(live, [slots[index]]);
      assert slots[head..][index - head] == slots[index];
      if kept[index].frame.Some? {
        kept := kept[writeIndex := kept[index]];
        writeIndex, live := writeIndex + 1, live + [slots[index]];
      }
    }
    assert slots[head..|slots|] == slots[head..];
    assert kept[..writeIndex] == live;
    kept := kept[..writeIndex];
  }

  lemma {:induction false} LiveOneMore(slots: seq<QueuedWrite>, head: nat, index: nat)
    requires head <= index < |slots|
    ensures Live(slots[head..index + 1]) == Live(slots[head..index]) + Live([slots[index]])
  {
    assert slots[head..index + 1] == slots[head..index] + [slots[index]];
    LiveConcat(slots[head..index], [slots[index]]);
  }

  /** Consuming the slot at the head. */
  lemma {:induction false} HeadSlot(slots: seq<QueuedWrite>, head: nat, byRequest: set<nat>, bytes: nat, tombstones: nat)
    requires Consistent(slots, head, byRequest, bytes, tombstones) && head < |slots|
    ensures var slot := slots[head];
            if slot.frame.None? then
              && tombstones > 0 && Consistent(slots, head + 1, byRequest, bytes, tombstones - 1)
              && Live(slots[head..]) == Live(slots[head + 1..])
            else
              && slot.bytes <= bytes
              && Consistent(slots, head + 1, byRequest - {slot.requestId}, bytes - slot.bytes, tombstones)
              && Live(slots[head..]) == [M.Job(slot.requestId, slot.frame.value)] + Live(slots[head + 1..])
  {
    var slot, rest := slots[head], slots[head..];
    assert rest[0] == slot && rest[1..] == slots[head + 1..];
    assert forall k | 0 <= k < |rest| - 1 :: rest[1..][k] == rest[k + 1];
    if slot.frame.Some? {
      var job := M.Job(slot.requestId, slot.frame.value);
      assert [] + [job] + Live(rest[1..]) == Live(rest);
      assert [] + Live(rest[1..]) == Live(rest[1..]);
      RemoveOne([], job, Live(rest[1..]), byRequest, bytes);
    }
  }

  /** A frame in the consumed part is of no interest any more. */
  lemma HeadCleared(slots: seq<QueuedWrite>, head: nat)
    requires head < |slots|
    ensures slots[head := slots[head].(frame := None)][head + 1..] == slots[head + 1..]
  {
  }

  class NativeWriteQueue {
    const socket: M.Socket
    const maxQueuedWriteBytes: nat
    var queuedWrites: seq<QueuedWrite>
    var queuedWritesByRequest: set<nat>
    var queuedWriteBytes: nat
    var queuedWriteHead: nat
    var queuedWriteTombstones: nat
    var writeBlocked: bool
    var calls: nat
    ghost var handed: seq<M.Job>
    ghost var offered: seq<M.Job>

    ghost predicate Valid()
      reads this
    {
      Consistent(queuedWrites, queuedWriteHead, queuedWritesByRequest, queuedWriteBytes, queuedWriteTombstones)
    }

    ghost function Model(): M.Writes
      reads this
      requires queuedWriteHead <= |queuedWrites|
    {
      M.Writes(Live(queuedWrites[queuedWriteHead..]), writeBlocked, calls, handed, offered)
    }

    constructor (socket: M.Socket, maxQueuedWriteBytes: nat)
      ensures Valid() && Model() == M.INITIAL
      ensures this.socket == socket && this.maxQueuedWriteBytes == maxQueuedWriteBytes
    {
      this.socket, this.maxQueuedWriteBytes := socket, maxQueuedWriteBytes;
      queuedWrites, queuedWritesByRequest := [], {};
      queuedWriteBytes, queuedWriteHead, queuedWriteTombstones := 0, 0, 0;
      writeBlocked, calls := false, 0;
      handed, offered := [], [];
    }

    /** True exactly for the requests whose frame is still waiting. */
    method Has(requestId: nat) returns (queued: bool)
      requires Valid()
      ensures queued <==> M.Holds(Model().queue, requestId)
    {
      return requestId in queuedWritesByRequest;
    }

    method Cancel(requestId: nat)
      requires Valid()
      modifies this`queuedWrites, this`queuedWritesByRequest, this`queuedWriteBytes
      modifies this`queuedWriteHead, this`queuedWriteTombstones
      ensures Valid() && Model() == M.Cancel(old(Model()), requestId)
    {
      if requestId !in queuedWritesByRequest {
        WithoutAbsent(Model().queue, requestId);
        return;
      }
      var left, freed := Tombstone(queuedWrites, queuedWriteHead, queuedWritesByRequest, queuedWriteBytes,
                                   queuedWriteTombstones, requestId);
      queuedWrites := left;
      queuedWritesByRequest := queuedWritesByRequest - {requestId};
      queuedWriteBytes := queuedWriteBytes - freed;
      queuedWriteTombstones := queuedWriteTombstones + 1;
      CompactTombstones();
    }

    /** Empty the array when nothing live is left, and drop tombstones when there are many. */
    method CompactTombstones()
      requires Valid()
      modifies this`queuedWrites, this`queuedWriteHead, this`queuedWriteTombstones
      ensures Valid() && Model() == old(Model())
    {
      if |queuedWritesByRequest| == 0 {
        NothingLive(Live(queuedWrites[queuedWriteHead..]));
        queuedWrites, queuedWriteHead, queuedWriteTombstones := [], 0, 0;
        return;
      }
      var remaining := |queuedWrites| - queuedWriteHead;
      if queuedWriteTombstones < COMPACTION_THRESHOLD || queuedWriteTombstones * 2 < remaining { return; }
      var kept := MoveLiveToFront(queuedWrites, queuedWriteHead);
      assert kept[0..] == kept;
      queuedWrites, queuedWriteHead, queuedWriteTombstones := kept, 0, 0;
    }

    method Clear()
      requires Valid()
      modifies this`queuedWrites, this`queuedWritesByRequest, this`queuedWriteBytes
      modifies this`queuedWriteHead, this`queuedWriteTombstones, this`writeBlocked
      ensures Valid() && Model() == M.Clear(old(Model()))
    {
      queuedWrites, queuedWritesByRequest := [], {};
      queuedWriteBytes, queuedWriteHead, queuedWriteTombstones := 0, 0, 0;
      writeBlocked := false;
    }

    /** Pass a frame to the socket; a throwing write rejects its request as unsent. */
    method WriteFrame(requestId: nat, frame: M.Frame) returns (rejected: seq<M.Rejection>)
      modifies this`calls, this`handed, this`writeBlocked
      requires queuedWriteHead <= |queuedWrites|
      ensures (Model(), rejected) == M.Send(old(Model()), socket, M.Job(requestId, frame))
    {
      var reply := socket(calls);
      calls := calls + 1;
      rejected := [];
      match reply {
        case Accepted => handed := handed + [M.Job(requestId, frame)];
        case AcceptedFull =>
          handed := handed + [M.Job(requestId, frame)];
          writeBlocked := true;
        case Threw => rejected := [M.Rejection(requestId, M.Unsent)];
      }
    }

    /** Write a frame now, or queue it while the socket is blocked. */
    method Write(requestId: nat, frame: M.Frame) returns (rejected: seq<M.Rejection>)
      requires Valid() && requestId !in queuedWritesByRequest
      modifies this
      ensures Valid()
      ensures (Model(), rejected) == M.Write(old(Model()), socket, M.Job(requestId, frame), maxQueuedWriteBytes)
    {
      offered := offered + [M.Job(requestId, frame)];
      if !writeBlocked {
        rejected := WriteFrame(requestId, frame);
        return;
      }
      if |frame| > maxQueuedWriteBytes - queuedWriteBytes { return [M.Rejection(requestId, M.QueueFull)]; }
      Pushed(queuedWrites, queuedWriteHead, queuedWritesByRequest, queuedWriteBytes, queuedWriteTombstones, requestId, frame);
      queuedWrites := queuedWrites + [QueuedWrite(|frame|, Some(frame), requestId)];
      queuedWritesByRequest := queuedWritesByRequest + {requestId};
      queuedWriteBytes := queuedWriteBytes + |frame|;
      return [];
    }

    /** Reject every request whose frame still waits, in queue order, and cancel its write. */
    method RejectQueued() returns (rejected: seq<M.Rejection>)
      requires Valid()
      modifies this`queuedWrites, this`queuedWritesByRequest, this`queuedWriteBytes
      modifies this`queuedWriteHead, this`queuedWriteTombstones
      ensures Valid() && (Model(), rejected) == M.RejectQueued(old(Model()))
    {
      ghost var w := Model();
      var requests := LiveRequests(queuedWrites[queuedWriteHead..]);
      rejected := [];
      for index := 0 to |requests|
        invariant Valid() && Model() == w.(queue := WithoutIds(w.queue, requests[..index]))
        invariant rejected == M.UnsentRejections(w.queue)[..index]
      {
        rejected := rejected + [M.Rejection(requests[index], M.Unsent)];
        Cancel(requests[index]);
        assert requests[..index + 1][..index] == requests[..index];
      }
      assert requests[..|requests|] == requests;
      AllRemoved(w.queue, requests);
      assert rejected == M.UnsentRejections(w.queue);
    }

    /** The socket has drained: write what waits until it blocks again. */
    method Flush(closed: bool, pending: set<nat>) returns (rejected: seq<M.Rejection>)
      requires Valid()
      modifies this
      ensures Valid() && (Model(), rejected) == M.Flush(old(Model()), socket, closed, pending)
    {
      rejected := [];
      if closed {
        Clear();
        return;
      }
      writeBlocked := false;
      ghost var w := Model();
      while !writeBlocked && queuedWriteHead < |queuedWrites|
        invariant Valid() && Continues(M.FlushFrom(w, socket, pending), M.FlushFrom(Model(), socket, pending), rejected)
        decreases |queuedWrites| - queuedWriteHead
      {
        var more := FlushSlot(pending);
        rejected := rejected + more;
      }
      assert queuedWrites[|queuedWrites|..] == [] && rejected + [] == rejected;
      ReleaseConsumed();
    }

    /** Take the slot at the head: skip a tombstone, or perform its write if it is still wanted. */
    method FlushSlot(pending: set<nat>) returns (rejected: seq<M.Rejection>)
      requires Valid() && !writeBlocked && queuedWriteHead < |queuedWrites|
      modifies this
      ensures Valid() && queuedWriteHead == old(queuedWriteHead) + 1 && |queuedWrites| == |old(queuedWrites)|
      ensures Continues(M.FlushFrom(old(Model()), socket, pending), M.FlushFrom(Model(), socket, pending), rejected)
    {
      var queued := queuedWrites[queuedWriteHead];
      HeadSlot(queuedWrites, queuedWriteHead, queuedWritesByRequest, queuedWriteBytes, queuedWriteTombstones);
      queuedWriteHead := queuedWriteHead + 1;
      rejected := [];
      if queued.frame.None? {
        queuedWriteTombstones := queuedWriteTombstones - 1;
        return;
      }
      var frame := queued.frame.value;
      HeadCleared(queuedWrites, queuedWriteHead - 1);
      queuedWrites := queuedWrites[queuedWriteHead - 1 := queued.(frame := None)];
      queuedWritesByRequest := queuedWritesByRequest - {queued.requestId};
      queuedWriteBytes := queuedWriteBytes - queued.bytes;
      if queued.requestId in pending { rejected := WriteFrame(queued.requestId, frame); }
    }

    /** Give the consumed part of the array back. */
    method ReleaseConsumed()
      requires Valid()
      modifies this`queuedWrites, this`queuedWriteHead, this`queuedWriteTombstones
      ensures Valid() && Model() == old(Model())
    {
      if queuedWriteHead == |queuedWrites| {
        queuedWrites, queuedWriteHead, queuedWriteTombstones := [], 0, 0;
      } else if queuedWriteHead >= COMPACTION_THRESHOLD && queuedWriteHead * 2 >= |queuedWrites| {
        var rest := queuedWrites[queuedWriteHead..];
        assert rest[0..] == rest;
        queuedWrites, queuedWriteHead := rest, 0;
      }
    }
  }

  /** A flush is finished by what remains of it after some rejections have been reported. */
  ghost predicate Continues(whole: (M.Writes, seq<M.Rejection>), rest: (M.Writes, seq<M.Rejection>), reported: seq<M.Rejection>) {
    whole.0 == rest.0 && whole.1 == reported + rest.1
  }

  lemma {:induction false} NothingLive(live: seq<M.Job>)
    ensures live != [] ==> |RequestsOf(live)| > 0
  {
    assert live != [] ==> live[0].requestId in RequestsOf(live);
  }

  lemma {:induction false} Pushed(slots: seq<QueuedWrite>, head: nat, byRequest: set<nat>, bytes: nat, tombstones: nat, id: nat, frame: M.Frame)
    requires Consistent(slots, head, byRequest, bytes, tombstones) && id !in byRequest
    ensures var slot := QueuedWrite(|frame|, Some(frame), id);
            && Consistent(slots + [slot], head, byRequest + {id}, bytes + |frame|, tombstones)
            && Live((slots + [slot])[head..]) == Live(slots[head..]) + [M.Job(id, frame)]
  {
    var slot := QueuedWrite(|frame|, Some(frame), id);
    assert (slots + [slot])[head..] == slots[head..] + [slot];
    LiveConcat(slots[head..], [slot]);
    assert [slot][1..] == [] && Live([slot]) == [M.Job(id, frame)];
    PushOne(Live(slots[head..]), byRequest, bytes, M.Job(id, frame));
  }

  /** The requests of the live slots, in order. */
  method LiveRequests(slots: seq<QueuedWrite>) returns (requests: seq<nat>)
    ensures |requests| == |Live(slots)|
    ensures forall i | 0 <= i < |requests| :: requests[i] == Live(slots)[i].requestId
  {
    requests := [];
    for index := 0 to |slots|
      invariant |requests| == |Live(slots[..index])|
      invariant forall i | 0 <= i < |requests| :: requests[i] == Live(slots[..index])[i].requestId
    {
      assert slots[..index + 1] == slots[..index] + [slots[index]];
      LiveConcat(slots[..index], [slots[index]]);
      if slots[index].frame.Some? { requests := requests + [slots[index].requestId]; }
    }
    assert slots[..|slots|] == slots;
  }

  function WithoutIds(queue: seq<M.Job>, ids: seq<nat>): seq<M.Job> {
    if ids == [] then queue else M.WithoutId(WithoutIds(queue, ids[..|ids| - 1]), ids[|ids| - 1])
  }

  lemma {:induction false} WithoutIdsHolds(queue: seq<M.Job>, ids: seq<nat>, id: nat)
    ensures M.Holds(WithoutIds(queue, ids), id) <==> M.Holds(queue, id) && id !in ids
    decreases |ids|
  {
    if ids != [] {
      var init, last := ids[..|ids| - 1], ids[|ids| - 1];
      assert ids == init + [last];
      M.WithoutIdHolds(WithoutIds(queue, init), last, id);
      WithoutIdsHolds(queue, init, id);
    }
  }

  lemma FirstIsHeld(queue: seq<M.Job>)
    requires queue != []
    ensures M.Holds(queue, queue[0].requestId)
  {
  }

  lemma {:induction false} AllRemoved(queue: seq<M.Job>, ids: seq<nat>)
    requires |ids| == |queue| && forall i | 0 <= i < |ids| :: ids[i] == queue[i].requestId
    ensures WithoutIds(queue, ids) == []
  {
    var left := WithoutIds(queue, ids);
    hide WithoutIds;
    if left != [] {
      FirstIsHeld(left);
      WithoutIdsHolds(queue, ids, left[0].requestId);
    }
  }
}
