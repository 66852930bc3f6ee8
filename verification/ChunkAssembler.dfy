/** The assembler with its maps and running totals; each method is proved to do what the function
    of the same name does, and to keep every counter equal to what it counts. */
module ChunkAssembler {
  import opened Wrappers
  import opened Bytes
  import opened ReceiveStream
  import opened ChunkAssembly

  /** The keys of each request that has some. */
  ghost predicate Indexed(keysByRequest: map<nat, set<Key>>, open: Open) {
    && (forall id | id in keysByRequest :: keysByRequest[id] != {})
    && (forall id, k | id in keysByRequest && k in keysByRequest[id] :: k in open && k.requestId == id)
    && forall k | k in open :: k.requestId in keysByRequest && k in keysByRequest[k.requestId]
  }

  lemma IndexAdds(keysByRequest: map<nat, set<Key>>, open: Open, key: Key, bodies: seq<seq<byte>>)
    requires Indexed(keysByRequest, open)
    ensures var id := key.requestId;
            Indexed(keysByRequest[id := (if id in keysByRequest then keysByRequest[id] else {}) + {key}], open[key := bodies])
  {
  }

  function Unlisted(keysByRequest: map<nat, set<Key>>, key: Key): map<nat, set<Key>>
    requires key.requestId in keysByRequest
  {
    var left := keysByRequest[key.requestId] - {key};
    if left == {} then keysByRequest - {key.requestId} else keysByRequest[key.requestId := left]
  }

  lemma IndexRemoves(keysByRequest: map<nat, set<Key>>, open: Open, key: Key)
    requires Indexed(keysByRequest, open) && key in open
    ensures Indexed(Unlisted(keysByRequest, key), open - {key})
  {
  }

  class NativeChunkAssembler {
    const maxChunkBytes: nat
    const maxChunkFrames: nat
    var maxResponseBytes: nat
    var chunks: Open
    var keysByRequest: map<nat, set<Key>>
    var bytesByKey: map<Key, nat>
    var framesByKey: map<Key, nat>
    var totalBytes: nat
    var totalFrames: nat

    ghost predicate Valid()
      reads this
    {
      && bytesByKey == BytesByKey(chunks) && framesByKey == FramesByKey(chunks) && Indexed(keysByRequest, chunks)
      && totalBytes == Total(bytesByKey) && totalFrames == Total(framesByKey)
    }

    ghost function CurrentLimits(): Limits
      reads this
    {
      Limits(maxChunkBytes, maxChunkFrames, maxResponseBytes)
    }

    constructor (maxChunkBytes: nat, maxChunkFrames: nat, maxResponseBytes: nat)
      ensures Valid() && chunks == map[] && CurrentLimits() == Limits(maxChunkBytes, maxChunkFrames, maxResponseBytes)
    {
      this.maxChunkBytes, this.maxChunkFrames, this.maxResponseBytes := maxChunkBytes, maxChunkFrames, maxResponseBytes;
      chunks, keysByRequest, bytesByKey, framesByKey := map[], map[], map[], map[];
      totalBytes, totalFrames := 0, 0;
      assert Slots(map[]) == {};
    }

    method UpdateMaxResponseBytes(limit: nat)
      requires Valid()
      modifies this`maxResponseBytes
      ensures Valid() && maxResponseBytes == if limit < old(maxResponseBytes) then limit else old(maxResponseBytes)
    {
      if limit < maxResponseBytes { maxResponseBytes := limit; }
    }

    method Assemble(frame: Frame) returns (result: Result<Option<Frame>, ()>)
      requires Valid()
      modifies this
      ensures Valid() && CurrentLimits() == old(CurrentLimits())
      ensures (chunks, result) == ChunkAssembly.Assemble(old(chunks), frame, CurrentLimits())
    {
      hide Total, BytesByKey, FramesByKey, Concat, Indexed;
      var key := KeyOf(frame);
      if !More(frame) && key !in chunks { return Success(Some(frame)); }
      CountsAt(chunks, key);
      var bytes := (if key in bytesByKey then bytesByKey[key] else 0) + |frame.body|;
      var frames := (if key in framesByKey then framesByKey[key] else 0) + 1;
      if bytes > maxChunkBytes || frames > maxChunkFrames || bytes > maxResponseBytes
         || totalBytes + |frame.body| > maxChunkBytes || totalFrames + 1 > maxChunkFrames {
        return Failure(());
      }
      Gather(key, frame.body, bytes, frames);
      if More(frame) { return Success(None); }
      var body := Joined(chunks[key]);
      assert chunks - {key} == old(chunks) - {key};
      Release(key);
      return Success(Some(frame.(body := body)));
    }

    /** Count and keep one more body. */
    method Gather(key: Key, body: seq<byte>, bytes: nat, frames: nat)
      requires Valid() && bytes == |Concat(BodiesOf(chunks, key))| + |body| && frames == |BodiesOf(chunks, key)| + 1
      modifies this`chunks, this`keysByRequest, this`bytesByKey, this`framesByKey, this`totalBytes, this`totalFrames
      ensures Valid() && chunks == old(chunks)[key := BodiesOf(old(chunks), key) + [body]]
    {
      hide Total, BytesByKey, FramesByKey, Concat, Indexed;
      GatherCounts(chunks, key, body);
      IndexAdds(keysByRequest, chunks, key, BodiesOf(chunks, key) + [body]);
      totalBytes, totalFrames := totalBytes + |body|, totalFrames + 1;
      bytesByKey, framesByKey := bytesByKey[key := bytes], framesByKey[key := frames];
      if key !in chunks {
        assert BodiesOf(chunks, key) + [body] == [body];
        chunks := chunks[key := [body]];
        var keys := if key.requestId in keysByRequest then keysByRequest[key.requestId] else {};
        keysByRequest := keysByRequest[key.requestId := keys + {key}];
      } else {
        AlreadyListed(keysByRequest, chunks, key);
        chunks := chunks[key := chunks[key] + [body]];
      }
    }

    method Release(key: Key)
      requires Valid() && key in chunks
      modifies this`chunks, this`keysByRequest, this`bytesByKey, this`framesByKey, this`totalBytes, this`totalFrames
      ensures Valid() && chunks == old(chunks) - {key}
    {
      hide Total, BytesByKey, FramesByKey, Concat, Indexed, Unlisted;
      CountsAt(chunks, key);
      Listed(keysByRequest, chunks, key);
      ReleaseCounts(chunks, key);
      IndexRemoves(keysByRequest, chunks, key);
      totalBytes := if totalBytes > bytesByKey[key] then totalBytes - bytesByKey[key] else 0;
      totalFrames := if totalFrames > framesByKey[key] then totalFrames - framesByKey[key] else 0;
      chunks, bytesByKey, framesByKey := chunks - {key}, bytesByKey - {key}, framesByKey - {key};
      keysByRequest := Unlisted(keysByRequest, key);
    }

    /** Forget what has been gathered for a request, and say how much that was. */
    method DiscardRequest(requestId: nat) returns (bytes: nat, frames: nat)
      requires Valid()
      modifies this`chunks, this`keysByRequest, this`bytesByKey, this`framesByKey, this`totalBytes, this`totalFrames
      ensures Valid() && chunks == WithoutRequest(old(chunks), requestId)
      ensures bytes == Total(BytesByKey(OfRequest(old(chunks), requestId)))
      ensures frames == Total(FramesByKey(OfRequest(old(chunks), requestId)))
    {
      ghost var before := chunks;
      var keys := if requestId in keysByRequest then keysByRequest[requestId] else {};
      hide Total, BytesByKey, FramesByKey, Concat, Indexed, OfRequest, WithoutRequest;
      KeysAreThoseOf(keysByRequest, chunks, requestId, keys);
      bytes, frames := DiscardKeys(keys);
      TotalsSplit(before, requestId, keys);
    }

    method DiscardKeys(keys: set<Key>) returns (bytes: nat, frames: nat)
      requires Valid() && keys <= chunks.Keys
      modifies this`chunks, this`keysByRequest, this`bytesByKey, this`framesByKey, this`totalBytes, this`totalFrames
      ensures Valid() && chunks == old(chunks) - keys
      ensures bytes + totalBytes == old(totalBytes) && frames + totalFrames == old(totalFrames)
    {
      hide Valid;
      bytes, frames := 0, 0;
      var todo := keys;
      while todo != {}
        invariant todo <= keys && Valid() && chunks == old(chunks) - (keys - todo)
        invariant bytes + totalBytes == old(totalBytes) && frames + totalFrames == old(totalFrames)
        decreases |todo|
      {
        var key := AnyKey(todo);
        var keyBytes, keyFrames := DiscardKey(key);
        bytes, frames, todo := bytes + keyBytes, frames + keyFrames, todo - {key};
      }
    }

    method DiscardKey(key: Key) returns (bytes: nat, frames: nat)
      requires Valid() && key in chunks
      modifies this`chunks, this`keysByRequest, this`bytesByKey, this`framesByKey, this`totalBytes, this`totalFrames
      ensures Valid() && chunks == old(chunks) - {key}
      ensures bytes + totalBytes == old(totalBytes) && frames + totalFrames == old(totalFrames)
    {
      hide Total, BytesByKey, FramesByKey, Concat, Indexed;
      CountsAt(chunks, key);
      ReleaseCounts(chunks, key);
      bytes, frames := bytesByKey[key], framesByKey[key];
      Release(key);
    }

    method Clear()
      modifies this`chunks, this`keysByRequest, this`bytesByKey, this`framesByKey, this`totalBytes, this`totalFrames
      ensures Valid() && chunks == map[]
    {
      chunks, keysByRequest, bytesByKey, framesByKey := map[], map[], map[], map[];
      totalBytes, totalFrames := 0, 0;
      assert Slots(map[]) == {};
    }
  }

  method AnyKey(keys: set<Key>) returns (key: Key)
    requires keys != {}
    ensures key in keys
  {
    key :| key in keys;
  }

  method Joined(bodies: seq<seq<byte>>) returns (body: seq<byte>)
    ensures body == Concat(bodies)
  {
    body := [];
    for index := 0 to |bodies|
      invariant body == Concat(bodies[..index])
    {
      assert bodies[..index + 1] == bodies[..index] + [bodies[index]];
      ConcatOneMore(bodies[..index], bodies[index]);
      body := body + bodies[index];
    }
    assert bodies[..|bodies|] == bodies;
  }

  lemma CountsAt(open: Open, key: Key)
    ensures key in BytesByKey(open) <==> key in open
    ensures key in FramesByKey(open) <==> key in open
    ensures (if key in BytesByKey(open) then BytesByKey(open)[key] else 0) == |Concat(BodiesOf(open, key))|
    ensures (if key in FramesByKey(open) then FramesByKey(open)[key] else 0) == |BodiesOf(open, key)|
  {
  }

  lemma Listed(keysByRequest: map<nat, set<Key>>, open: Open, key: Key)
    requires Indexed(keysByRequest, open) && key in open
    ensures key.requestId in keysByRequest && key in keysByRequest[key.requestId]
  {
  }

  lemma {:induction false} AlreadyListed(keysByRequest: map<nat, set<Key>>, open: Open, key: Key)
    requires Indexed(keysByRequest, open) && key in open
    ensures key.requestId in keysByRequest
    ensures keysByRequest[key.requestId := keysByRequest[key.requestId] + {key}] == keysByRequest
  {
    assert keysByRequest[key.requestId] + {key} == keysByRequest[key.requestId];
  }

  lemma KeysAreThoseOf(keysByRequest: map<nat, set<Key>>, open: Open, requestId: nat, keys: set<Key>)
    requires Indexed(keysByRequest, open) && keys == if requestId in keysByRequest then keysByRequest[requestId] else {}
    ensures keys == OfRequest(open, requestId).Keys && keys <= open.Keys
  {
  }

  /** What one request holds and what the others hold add up to everything. */
  lemma {:induction false} TotalsSplit(open: Open, requestId: nat, keys: set<Key>)
    requires keys == OfRequest(open, requestId).Keys
    ensures open - keys == WithoutRequest(open, requestId)
    ensures Total(BytesByKey(open)) == Total(BytesByKey(open - keys)) + Total(BytesByKey(OfRequest(open, requestId)))
    ensures Total(FramesByKey(open)) == Total(FramesByKey(open - keys)) + Total(FramesByKey(OfRequest(open, requestId)))
  {
    hide Total;
    var own, rest := OfRequest(open, requestId), open - keys;
    CountsSplit(open, rest, own);
    TotalOfUnion(BytesByKey(open), BytesByKey(rest), BytesByKey(own));
    TotalOfUnion(FramesByKey(open), FramesByKey(rest), FramesByKey(own));
  }

  lemma {:induction false} CountsSplit(open: Open, rest: Open, own: Open)
    requires rest.Keys !! own.Keys && open == rest + own
    ensures BytesByKey(open) == BytesByKey(rest) + BytesByKey(own) && BytesByKey(rest).Keys !! BytesByKey(own).Keys
    ensures FramesByKey(open) == FramesByKey(rest) + FramesByKey(own) && FramesByKey(rest).Keys !! FramesByKey(own).Keys
  {
    BytesSplit(open, rest, own);
    FramesSplit(open, rest, own);
  }

  lemma {:induction false} BytesSplit(open: Open, rest: Open, own: Open)
    requires rest.Keys !! own.Keys && open == rest + own
    ensures BytesByKey(rest).Keys == rest.Keys && BytesByKey(own).Keys == own.Keys
    ensures BytesByKey(open) == BytesByKey(rest) + BytesByKey(own)
  {
    hide Concat;
    assert forall key | key in own :: open[key] == own[key];
    assert forall key | key in rest :: open[key] == rest[key];
  }

  lemma {:induction false} FramesSplit(open: Open, rest: Open, own: Open)
    requires rest.Keys !! own.Keys && open == rest + own
    ensures FramesByKey(rest).Keys == rest.Keys && FramesByKey(own).Keys == own.Keys
    ensures FramesByKey(open) == FramesByKey(rest) + FramesByKey(own)
  {
    assert forall key | key in own :: open[key] == own[key];
    assert forall key | key in rest :: open[key] == rest[key];
  }

  lemma {:induction false} TotalOfUnion(counts: map<Key, nat>, a: map<Key, nat>, b: map<Key, nat>)
    requires a.Keys !! b.Keys && counts == a + b
    ensures Total(counts) == Total(a) + Total(b)
  {
    assert Slots(counts) == Slots(a) + Slots(b);
    assert Slots(a) !! Slots(b);
  }
}
