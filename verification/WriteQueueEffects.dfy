/** What each operation of the write queue does, told of the socket's replies. */
module WriteQueueEffects {
  import opened WriteQueueModel

  /** A frame goes straight to the socket unless the socket is blocked; then it waits at the end of the
      queue if its bytes still fit, and is refused otherwise. */
  lemma WritesExactly(w: Writes, socket: Socket, job: Job, maxBytes: nat)
    requires BytesOf(w.queue) <= maxBytes
    ensures var (v, rejected) := Write(w, socket, job, maxBytes);
            && v.offered == w.offered + [job]
            && (if w.blocked && BytesOf(w.queue) + |job.frame| <= maxBytes then
                  v == w.(offered := v.offered, queue := w.queue + [job]) && rejected == []
                else if w.blocked then
                  v == w.(offered := v.offered) && rejected == [Rejection(job.requestId, QueueFull)]
                else
                  && v.calls == w.calls + 1 && v.queue == w.queue && (v.blocked <==> socket(w.calls) == AcceptedFull)
                  && (socket(w.calls) == Threw ==> v.handed == w.handed && rejected == [Rejection(job.requestId, Unsent)])
                  && (socket(w.calls) != Threw ==> v.handed == w.handed + [job] && rejected == []))
  {
  }

  /** The frames among these whose request is still pending, in order. */
  function Live(queue: seq<Job>, pending: set<nat>): seq<Job> {
    if queue == [] then []
    else (if queue[0].requestId in pending then [queue[0]] else []) + Live(queue[1..], pending)
  }

  lemma LiveStep(queue: seq<Job>, pending: set<nat>)
    requires queue != []
    ensures Live(queue, pending) == (if queue[0].requestId in pending then [queue[0]] else []) + Live(queue[1..], pending)
  {
  }

  /** Those of the frames that the socket takes, when the first of them is its write call number
      `from`. */
  function Accepted(frames: seq<Job>, socket: Socket, from: nat): seq<Job> {
    if frames == [] then []
    else (if socket(from) == Threw then [] else [frames[0]]) + Accepted(frames[1..], socket, from + 1)
  }

  function Refused(frames: seq<Job>, socket: Socket, from: nat): seq<Rejection> {
    if frames == [] then []
    else (if socket(from) == Threw then [Rejection(frames[0].requestId, Unsent)] else []) + Refused(frames[1..], socket, from + 1)
  }

  /** The first `k` frames of the queue have left it: those whose request is still pending were written,
      one call each, and only the last of these calls may have asked to stop. */
  ghost predicate FlushedTo(w: Writes, socket: Socket, pending: set<nat>, k: nat, v: Writes, rejected: seq<Rejection>)
    requires k <= |w.queue|
  {
    var written := Live(w.queue[..k], pending);
    && v.queue == w.queue[k..] && v.offered == w.offered
    && (v.blocked ==> k > 0 && w.queue[k - 1].requestId in pending) && (v.blocked || k == |w.queue|)
    && Wrote(w, socket, written, v, rejected) && Stopped(socket, w.calls, |written|, v.blocked)
  }

  predicate Wrote(w: Writes, socket: Socket, written: seq<Job>, v: Writes, rejected: seq<Rejection>) {
    && v.calls == w.calls + |written| && v.handed == w.handed + Accepted(written, socket, w.calls)
    && rejected == Refused(written, socket, w.calls)
  }

  /** Of `n` calls from `from` on only the last may have asked to stop, and the socket is blocked if it
      has. */
  predicate Stopped(socket: Socket, from: nat, n: nat, blocked: bool) {
    && (forall call | from <= call < from + n - 1 :: socket(call) != AcceptedFull)
    && (blocked <==> n > 0 && socket(from + n - 1) == AcceptedFull)
  }

  lemma {:induction false} FlushesTo(w: Writes, socket: Socket, pending: set<nat>) returns (k: nat)
    requires !w.blocked
    ensures k <= |w.queue|
    ensures FlushedTo(w, socket, pending, k, FlushFrom(w, socket, pending).0, FlushFrom(w, socket, pending).1)
    decreases |w.queue|
  {
    if w.queue == [] {
      k := 0;
      assert w.handed + [] == w.handed;
    } else {
      var job, rest := w.queue[0], w.(queue := w.queue[1..]);
      if job.requestId !in pending {
        var j := FlushesTo(rest, socket, pending);
        k := j + 1;
        Skipped(w, socket, pending, j, FlushFrom(rest, socket, pending).0, FlushFrom(rest, socket, pending).1);
      } else {
        var (sent, first) := Send(rest, socket, job);
        if sent.blocked {
          k := 1;
          FirstBlocks(w, socket, pending);
        } else {
          var j := FlushesTo(sent, socket, pending);
          k := j + 1;
          FirstWritten(w, socket, pending, j, FlushFrom(sent, socket, pending).0, FlushFrom(sent, socket, pending).1);
        }
      }
    }
  }

  lemma {:induction false} Skipped(w: Writes, socket: Socket, pending: set<nat>, j: nat, v: Writes, rejected: seq<Rejection>)
    requires w.queue != [] && w.queue[0].requestId !in pending && j < |w.queue|
    requires FlushedTo(w.(queue := w.queue[1..]), socket, pending, j, v, rejected)
    ensures FlushedTo(w, socket, pending, j + 1, v, rejected)
  {
    assert w.queue[..j + 1][1..] == w.queue[1..][..j];
    assert w.queue[j + 1..] == w.queue[1..][j..];
    LiveStep(w.queue[..j + 1], pending);
    hide Accepted, Refused, Live;
    var written := Live(w.queue[1..][..j], pending);
    assert [] + written == written;
  }

  lemma {:induction false} FirstBlocks(w: Writes, socket: Socket, pending: set<nat>)
    requires w.queue != [] && w.queue[0].requestId in pending && !w.blocked && socket(w.calls) == AcceptedFull
    ensures FlushedTo(w, socket, pending, 1, FlushFrom(w, socket, pending).0, FlushFrom(w, socket, pending).1)
  {
    assert w.queue[..1] == [w.queue[0]] && w.queue[..1][1..] == [];
    assert Live(w.queue[..1], pending) == [w.queue[0]];
    assert [w.queue[0]][1..] == [];
  }

  lemma WrittenStep(written: seq<Job>, later: seq<Job>, job: Job, socket: Socket, from: nat)
    requires written == [job] + later
    ensures Accepted(written, socket, from) == (if socket(from) == Threw then [] else [job]) + Accepted(later, socket, from + 1)
    ensures Refused(written, socket, from)
         == (if socket(from) == Threw then [Rejection(job.requestId, Unsent)] else []) + Refused(later, socket, from + 1)
  {
    assert written[1..] == later;
  }

  lemma SentFirst(w: Writes, socket: Socket, job: Job)
    requires !w.blocked && socket(w.calls) != AcceptedFull
    ensures var (sent, rejected) := Send(w, socket, job);
            && sent == w.(calls := w.calls + 1, handed := w.handed + if socket(w.calls) == Threw then [] else [job])
            && rejected == if socket(w.calls) == Threw then [Rejection(job.requestId, Unsent)] else []
  {
  }

  lemma {:induction false} FirstWritten(w: Writes, socket: Socket, pending: set<nat>, j: nat, v: Writes, rejected: seq<Rejection>)
    requires w.queue != [] && w.queue[0].requestId in pending && j < |w.queue| && socket(w.calls) != AcceptedFull && !w.blocked
    requires FlushedTo(Send(w.(queue := w.queue[1..]), socket, w.queue[0]).0, socket, pending, j, v, rejected)
    ensures FlushedTo(w, socket, pending, j + 1, v, Send(w.(queue := w.queue[1..]), socket, w.queue[0]).1 + rejected)
  {
    var job, later := w.queue[0], Live(w.queue[1..][..j], pending);
    var rest := w.(queue := w.queue[1..]);
    hide Live, Accepted, Refused, Send, Wrote, Stopped;
    SentFirst(rest, socket, job);
    assert w.queue[..j + 1][1..] == w.queue[1..][..j];
    assert w.queue[j + 1..] == w.queue[1..][j..];
    LiveStep(w.queue[..j + 1], pending);
    WroteFirst(rest, socket, later, job, v, rejected);
    WroteAlike(rest, w, socket, [job] + later, v, Send(rest, socket, job).1 + rejected);
    StoppedLater(socket, w.calls, |later|, v.blocked);
  }

  lemma WroteAlike(w: Writes, x: Writes, socket: Socket, written: seq<Job>, v: Writes, rejected: seq<Rejection>)
    requires w.calls == x.calls && w.handed == x.handed
    ensures Wrote(w, socket, written, v, rejected) <==> Wrote(x, socket, written, v, rejected)
  {
  }

  lemma {:induction false} WroteFirst(w: Writes, socket: Socket, later: seq<Job>, job: Job, v: Writes, rejected: seq<Rejection>)
    requires !w.blocked && socket(w.calls) != AcceptedFull && Wrote(Send(w, socket, job).0, socket, later, v, rejected)
    ensures Wrote(w, socket, [job] + later, v, Send(w, socket, job).1 + rejected)
  {
    hide Accepted, Refused, Send;
    SentFirst(w, socket, job);
    WrittenStep([job] + later, later, job, socket, w.calls);
    var taken, more := if socket(w.calls) == Threw then [] else [job], Accepted(later, socket, w.calls + 1);
    assert w.handed + taken + more == w.handed + (taken + more);
  }

  lemma StoppedLater(socket: Socket, from: nat, n: nat, blocked: bool)
    requires Stopped(socket, from + 1, n, blocked) && socket(from) != AcceptedFull
    ensures Stopped(socket, from, n + 1, blocked)
  {
  }

  /** When the socket is ready again, the queued frames whose requests are still pending are written in
      order, until one of the calls asks to stop or none is left; each is taken, or refused as unsent
      when its call throws. On a closed connection nothing is written. */
  lemma {:induction false} FlushesExactly(w: Writes, socket: Socket, closed: bool, pending: set<nat>)
    ensures var (v, rejected) := Flush(w, socket, closed, pending);
            if closed then v == w.(queue := [], blocked := false) && rejected == []
            else exists k: nat | k <= |w.queue| :: FlushedTo(w, socket, pending, k, v, rejected)
  {
    if !closed {
      var k := FlushesTo(w.(blocked := false), socket, pending);
      assert FlushedTo(w, socket, pending, k, Flush(w, socket, closed, pending).0, Flush(w, socket, closed, pending).1);
    }
  }

  /** A cancelled request's frame leaves the queue; all others stay in their order. */
  lemma {:induction false} CancelsExactly(w: Writes, front: seq<Job>, job: Job, back: seq<Job>)
    requires w.queue == front + [job] + back && DistinctIds(w.queue)
    ensures Cancel(w, job.requestId) == w.(queue := front + back)
  {
    forall i | 0 <= i < |front|
      ensures front[i].requestId != job.requestId
    {
      assert w.queue[i] == front[i] && w.queue[|front|] == job;
    }
    forall i | 0 <= i < |back|
      ensures back[i].requestId != job.requestId
    {
      assert w.queue[|front| + 1 + i] == back[i] && w.queue[|front|] == job;
    }
    assert front + [job] + back == front + ([job] + back);
    NothingWithout(back, job.requestId);
    assert WithoutId([job] + back, job.requestId) == WithoutId(back, job.requestId) by { assert ([job] + back)[1..] == back; }
    WithoutAfter(front, [job] + back, job.requestId);
  }

  lemma {:induction false} NothingWithout(queue: seq<Job>, id: nat)
    requires forall i | 0 <= i < |queue| :: queue[i].requestId != id
    ensures WithoutId(queue, id) == queue
  {
    if queue != [] { NothingWithout(queue[1..], id); }
  }

  lemma {:induction false} WithoutAfter(front: seq<Job>, queue: seq<Job>, id: nat)
    requires forall i | 0 <= i < |front| :: front[i].requestId != id
    ensures WithoutId(front + queue, id) == front + WithoutId(queue, id)
  {
    if front == [] {
      assert front + queue == queue;
    } else {
      assert (front + queue)[1..] == front[1..] + queue;
      WithoutAfter(front[1..], queue, id);
    }
  }
}
