/** The receive buffer: chunks with an offset into the first, and a paged assembly for a frame that
    is larger than what has arrived. It is proved to deliver what parsing its content delivers. */
module ReceiveBuffer {
  import opened Wrappers
  import opened Bytes
  import opened ReceiveStream

  const FRAME_ASSEMBLY_PAGE_BYTES := 64 * 1024
  const COMPACTION_THRESHOLD := 1024

  function Min(a: nat, b: nat): nat {
    if a < b then a else b
  }

  lemma TakeMore<T>(front: seq<T>, s: seq<T>, n: nat, more: nat)
    requires n + more <= |s|
    ensures front + s[..n] + s[n..][..more] == front + s[..n + more]
  {
  }

  lemma MinIs(m: nat, a: nat, b: nat)
    requires m <= a && m <= b && (m == a || m == b)
    ensures m == Min(a, b)
  {
  }

  predicate Extends<T(==)>(s: seq<T>, t: seq<T>) {
    |s| <= |t| && t[..|s|] == s
  }

  /** Fixed pages that together hold one frame, filled in place. */
  class NativeFrameAssembly {
    const frameLength: nat
    var pages: seq<array<byte>>
    var pageBytes: nat
    var receivedBytes: nat
    ghost var content: seq<byte>

    /** The pages have the right sizes and hold the content. */
    ghost predicate Valid()
      reads this, pages
    {
      && receivedBytes == |content|
      && Shaped(pages, frameLength, receivedBytes, pageBytes)
      && FullPagesHold(pages, content)
      && (pages != [] ==> PageHolds(pages[|pages| - 1], content, (|pages| - 1) * FRAME_ASSEMBLY_PAGE_BYTES, pageBytes))
    }

    constructor (frameLength: nat)
      ensures Valid() && content == [] && this.frameLength == frameLength && pages == []
    {
      this.frameLength := frameLength;
      pages, pageBytes, receivedBytes, content := [], 0, 0, [];
    }

    method Append(chunk: seq<byte>) returns (consumed: nat)
      requires Valid()
      modifies this, pages
      ensures Valid() && Extends(old(pages), pages) && forall k | |old(pages)| <= k < |pages| :: fresh(pages[k])
      ensures receivedBytes == |content|
      ensures consumed == Min(|chunk|, frameLength - |old(content)|)
      ensures content == old(content) + chunk[..consumed]
    {
      hide FullPagesHold;
      assert receivedBytes == |content| <= frameLength;
      hide Valid, Min;
      consumed := 0;
      ghost var before := content;
      assert content == before + chunk[..0];
      while consumed < |chunk| && receivedBytes < frameLength
        invariant Valid() && receivedBytes == |content| <= frameLength
        invariant consumed <= |chunk| && content == before + chunk[..consumed]
        invariant Extends(old(pages), pages) && forall k | |old(pages)| <= k < |pages| :: fresh(pages[k])
        decreases |chunk| - consumed
      {
        var bytes := AppendSome(chunk[consumed..]);
        TakeMore(before, chunk, consumed, bytes);
        consumed := consumed + bytes;
      }
      MinIs(consumed, |chunk|, frameLength - |before|);
    }

    /** Copy what fits into the last page, after adding a page if that one is full. */
    method AppendSome(rest: seq<byte>) returns (bytes: nat)
      requires Valid() && rest != [] && receivedBytes < frameLength
      modifies this, pages
      ensures Valid() && 0 < bytes <= |rest| && content == old(content) + rest[..bytes]
      ensures receivedBytes == |content| <= frameLength
      ensures Extends(old(pages), pages) && forall k | |old(pages)| <= k < |pages| :: fresh(pages[k])
    {
      if pages == [] || pageBytes == pages[|pages| - 1].Length { AddPage(); }
      var page := pages[|pages| - 1];
      bytes := Min(Min(|rest|, page.Length - pageBytes), frameLength - receivedBytes);
      CopyIn(rest[..bytes]);
    }

    method AddPage()
      requires Valid() && receivedBytes < frameLength && (pages == [] || pageBytes == pages[|pages| - 1].Length)
      modifies this`pages, this`pageBytes
      ensures Valid() && pages != [] && pageBytes == 0 && pageBytes < pages[|pages| - 1].Length
      ensures |pages| == |old(pages)| + 1 && Extends(old(pages), pages) && fresh(pages[|old(pages)|])
    {
      var page := new byte[Min(FRAME_ASSEMBLY_PAGE_BYTES, frameLength - receivedBytes)];
      hide FullPagesHold, Shaped;
      ShapedWithPage(pages, page, frameLength, receivedBytes, pageBytes);
      OnePageMore(pages, page, content);
      pages := pages + [page];
      pageBytes := 0;
    }

    /** Copy bytes into the last page. */
    method CopyIn(bytes: seq<byte>)
      requires Valid() && pages != [] && pageBytes + |bytes| <= pages[|pages| - 1].Length
      requires receivedBytes + |bytes| <= frameLength
      modifies this`pageBytes, this`receivedBytes, this`content, pages[|pages| - 1]
      ensures Valid() && content == old(content) + bytes && receivedBytes == old(receivedBytes) + |bytes|
    {
      hide PageHolds, Shaped, FullPagesHold, Min;
      var page := pages[|pages| - 1];
      ghost var start := (|pages| - 1) * FRAME_ASSEMBLY_PAGE_BYTES;
      LastPage(pages, frameLength, pageBytes, content);
      ShapedMore(pages, frameLength, receivedBytes, pageBytes, |bytes|);
      CopyIntoLast(pages, content, page, pageBytes, bytes);
      PageGrows(page, content, start, pageBytes, bytes);
      FullPagesStay(pages, content, bytes);
      pageBytes, receivedBytes, content := pageBytes + |bytes|, receivedBytes + |bytes|, content + bytes;
    }

    /** All pages one after another; a single page is the frame itself. */
    method Finish() returns (frame: seq<byte>)
      requires Valid() && receivedBytes == frameLength > 0
      ensures frame == content
    {
      if |pages| == 1 { return pages[0][..]; }
      frame := [];
      for p := 0 to |pages|
        invariant frame == content[..Min(p * FRAME_ASSEMBLY_PAGE_BYTES, frameLength)]
      {
        assert PageHolds(pages[p], content, p * FRAME_ASSEMBLY_PAGE_BYTES, pages[p].Length);
        frame := frame + pages[p][..];
      }
    }
  }

  /** All pages are full-sized but the last, which is as large as the frame needs; only the last
      is partly filled. */
  ghost predicate Shaped(pages: seq<array<byte>>, frameLength: nat, receivedBytes: nat, pageBytes: nat) {
    && receivedBytes <= frameLength && (forall p, q | 0 <= p < q < |pages| :: pages[p] != pages[q])
    && (pages == [] ==> receivedBytes == 0 && pageBytes == 0)
    && (pages != [] ==>
          && receivedBytes == (|pages| - 1) * FRAME_ASSEMBLY_PAGE_BYTES + pageBytes
          && pageBytes <= pages[|pages| - 1].Length
          && pages[|pages| - 1].Length == Min(FRAME_ASSEMBLY_PAGE_BYTES, frameLength - (|pages| - 1) * FRAME_ASSEMBLY_PAGE_BYTES))
    && (forall p | 0 <= p < |pages| - 1 :: pages[p].Length == FRAME_ASSEMBLY_PAGE_BYTES)
  }

  /** The pages before the last hold the beginning of the content, in order. */
  ghost predicate FullPagesHold(pages: seq<array<byte>>, content: seq<byte>)
    reads pages
  {
    forall p | 0 <= p < |pages| - 1 :: PageHolds(pages[p], content, p * FRAME_ASSEMBLY_PAGE_BYTES, FRAME_ASSEMBLY_PAGE_BYTES)
  }

  lemma LastPage(pages: seq<array<byte>>, frameLength: nat, pageBytes: nat, content: seq<byte>)
    requires Shaped(pages, frameLength, |content|, pageBytes) && pages != []
    requires PageHolds(pages[|pages| - 1], content, (|pages| - 1) * FRAME_ASSEMBLY_PAGE_BYTES, pageBytes)
    ensures var page, start := pages[|pages| - 1], (|pages| - 1) * FRAME_ASSEMBLY_PAGE_BYTES;
            && start + pageBytes == |content| && pageBytes <= page.Length && page[..pageBytes] == content[start..start + pageBytes]
            && forall p | 0 <= p < |pages| - 1 :: pages[p] != page
  {
  }

  lemma ShapedMore(pages: seq<array<byte>>, frameLength: nat, receivedBytes: nat, pageBytes: nat, more: nat)
    requires Shaped(pages, frameLength, receivedBytes, pageBytes) && pages != [] && pageBytes + more <= pages[|pages| - 1].Length
    requires receivedBytes + more <= frameLength
    ensures Shaped(pages, frameLength, receivedBytes + more, pageBytes + more)
  {
  }

  lemma ShapedWithPage(pages: seq<array<byte>>, page: array<byte>, frameLength: nat, receivedBytes: nat, pageBytes: nat)
    requires Shaped(pages, frameLength, receivedBytes, pageBytes) && receivedBytes < frameLength && page !in pages
    requires pages == [] || pageBytes == pages[|pages| - 1].Length
    requires page.Length == Min(FRAME_ASSEMBLY_PAGE_BYTES, frameLength - receivedBytes)
    ensures Shaped(pages + [page], frameLength, receivedBytes, 0) && page.Length > 0
    ensures pages != [] ==> pageBytes == FRAME_ASSEMBLY_PAGE_BYTES
    ensures receivedBytes == |pages| * FRAME_ASSEMBLY_PAGE_BYTES
  {
  }

  /** A full last page becomes one of the pages before the last. */
  lemma {:induction false} OnePageMore(pages: seq<array<byte>>, page: array<byte>, content: seq<byte>)
    requires FullPagesHold(pages, content)
    requires pages != [] ==> PageHolds(pages[|pages| - 1], content, (|pages| - 1) * FRAME_ASSEMBLY_PAGE_BYTES, FRAME_ASSEMBLY_PAGE_BYTES)
    ensures FullPagesHold(pages + [page], content)
  {
    hide PageHolds;
  }

  /** The full pages hold the same when the content grows. */
  lemma {:induction false} FullPagesStay(pages: seq<array<byte>>, content: seq<byte>, bytes: seq<byte>)
    requires FullPagesHold(pages, content)
    ensures FullPagesHold(pages, content + bytes)
  {
    forall p | 0 <= p < |pages| - 1
      ensures PageHolds(pages[p], content + bytes, p * FRAME_ASSEMBLY_PAGE_BYTES, FRAME_ASSEMBLY_PAGE_BYTES)
    {
      assert PageHolds(pages[p], content, p * FRAME_ASSEMBLY_PAGE_BYTES, FRAME_ASSEMBLY_PAGE_BYTES);
      PrefixHolds(content, bytes, p * FRAME_ASSEMBLY_PAGE_BYTES, FRAME_ASSEMBLY_PAGE_BYTES);
    }
  }

  lemma PrefixHolds(content: seq<byte>, bytes: seq<byte>, start: nat, length: nat)
    requires start + length <= |content|
    ensures (content + bytes)[start..start + length] == content[start..start + length]
  {
  }

  lemma {:induction false} PageGrows(page: array<byte>, content: seq<byte>, start: nat, length: nat, bytes: seq<byte>)
    requires length + |bytes| <= page.Length && start + length == |content|
    requires page[..length] == content[start..start + length] && page[length..length + |bytes|] == bytes
    ensures PageHolds(page, content + bytes, start, length + |bytes|)
  {
    assert page[..length + |bytes|] == page[..length] + page[length..length + |bytes|];
    assert (content + bytes)[start..start + length + |bytes|] == content[start..start + length] + bytes;
  }

  method CopyBytes(page: array<byte>, at: nat, bytes: seq<byte>)
    requires at + |bytes| <= page.Length
    modifies page
    ensures page[..at] == old(page[..at]) && page[at..at + |bytes|] == bytes
  {
    for i := 0 to |bytes|
      invariant page[..at] == old(page[..at]) && page[at..at + i] == bytes[..i]
    {
      page[at + i] := bytes[i];
    }
  }

  /** Nothing happens to the pages before the last. */
  method CopyIntoLast(ghost pages: seq<array<byte>>, ghost content: seq<byte>, page: array<byte>, at: nat, bytes: seq<byte>)
    requires pages != [] && page == pages[|pages| - 1] && at + |bytes| <= page.Length
    requires forall p | 0 <= p < |pages| - 1 :: pages[p] != page
    requires FullPagesHold(pages, content)
    modifies page
    ensures FullPagesHold(pages, content)
    ensures page[..at] == old(page[..at]) && page[at..at + |bytes|] == bytes
  {
    CopyBytes(page, at, bytes);
  }

  /** The page's first `length` bytes are those of the content from `start` on. */
  ghost predicate PageHolds(page: array<byte>, content: seq<byte>, start: nat, length: nat)
    reads page
  {
    length <= page.Length && start + length <= |content| && page[..length] == content[start..start + length]
  }

  // ----- The chunk list -----

  function Flat(chunks: seq<seq<byte>>): seq<byte> {
    if chunks == [] then [] else chunks[0] + Flat(chunks[1..])
  }

  lemma {:induction false} FlatAppend(chunks: seq<seq<byte>>, chunk: seq<byte>)
    ensures Flat(chunks + [chunk]) == Flat(chunks) + chunk
  {
    if chunks == [] {
      assert [] + [chunk] == [chunk] && [chunk][1..] == [] && chunk + [] == chunk && [] + chunk == chunk;
    } else {
      assert (chunks + [chunk])[1..] == chunks[1..] + [chunk];
      FlatAppend(chunks[1..], chunk);
    }
  }

  /** The position is inside the chunk it points to, or at the very end. */
  predicate Positioned(chunks: seq<seq<byte>>, index: nat, offset: nat) {
    && index <= |chunks|
    && (forall i | index <= i < |chunks| :: chunks[i] != [])
    && (if index < |chunks| then offset < |chunks[index]| else offset == 0)
  }

  /** The bytes from a position on. */
  function From(chunks: seq<seq<byte>>, index: nat, offset: nat): seq<byte>
    requires Positioned(chunks, index, offset)
  {
    if index == |chunks| then [] else chunks[index][offset..] + Flat(chunks[index + 1..])
  }

  /** Moving on by some bytes of the current chunk, to the next chunk if that is used up. */
  lemma {:induction false} Advance(chunks: seq<seq<byte>>, index: nat, offset: nat, bytes: nat)
    requires Positioned(chunks, index, offset) && index < |chunks| && offset + bytes <= |chunks[index]|
    ensures bytes <= |From(chunks, index, offset)|
    ensures From(chunks, index, offset)[..bytes] == chunks[index][offset..offset + bytes]
    ensures offset + bytes < |chunks[index]| ==>
              Positioned(chunks, index, offset + bytes)
              && From(chunks, index, offset + bytes) == From(chunks, index, offset)[bytes..]
    ensures offset + bytes == |chunks[index]| ==>
              Positioned(chunks, index + 1, 0) && From(chunks, index + 1, 0) == From(chunks, index, offset)[bytes..]
  {
    if index + 1 < |chunks| { assert chunks[index + 1..][1..] == chunks[index + 2..]; }
  }

  lemma {:induction false} FromStart(chunks: seq<seq<byte>>, index: nat, offset: nat)
    requires Positioned(chunks, index, offset)
    ensures Positioned(chunks[index..], 0, offset) && From(chunks[index..], 0, offset) == From(chunks, index, offset)
  {
    if index < |chunks| { assert chunks[index..][1..] == chunks[index + 1..]; }
  }

  lemma {:induction false} PushChunk(chunks: seq<seq<byte>>, index: nat, offset: nat, chunk: seq<byte>)
    requires Positioned(chunks, index, offset) && chunk != []
    ensures Positioned(chunks + [chunk], index, offset)
    ensures From(chunks + [chunk], index, offset) == From(chunks, index, offset) + chunk
  {
    var all := chunks + [chunk];
    if index == |chunks| {
      assert all[index + 1..] == [];
    } else {
      assert all[index + 1..] == chunks[index + 1..] + [chunk];
      FlatAppend(chunks[index + 1..], chunk);
    }
  }

  class NativeReceiveBuffer {
    var assembly: NativeFrameAssembly?
    var chunks: seq<seq<byte>>
    var bufferedBytes: nat
    var chunkIndex: nat
    var chunkOffset: nat

    ghost function Buffered(): seq<byte>
      reads this
      requires Positioned(chunks, chunkIndex, chunkOffset)
    {
      From(chunks, chunkIndex, chunkOffset)
    }

    ghost function Repr(): set<object>
      reads this, assembly
    {
      if assembly == null then {this} else {this, assembly} + set page | page in assembly.pages
    }

    /** Everything that has arrived and not been delivered. */
    ghost function Content(): seq<byte>
      reads this, assembly
      requires Positioned(chunks, chunkIndex, chunkOffset)
    {
      (if assembly == null then [] else assembly.content) + Buffered()
    }

    /** A frame is assembled only while it is incomplete, or complete and not fetched yet; chunks
        are kept only behind a complete one. */
    ghost predicate Valid()
      reads this, assembly, Repr()
    {
      && Positioned(chunks, chunkIndex, chunkOffset) && bufferedBytes == |Buffered()|
      && (assembly != null ==>
            && assembly.Valid() && (assembly.receivedBytes < assembly.frameLength ==> Buffered() == [])
            && HEADER_SIZE <= |assembly.content| && assembly.frameLength == FrameLength(assembly.content))
    }

    /** The header of a frame under assembly has been checked against the limit. */
    ghost predicate Checked(limit: nat)
      reads this, assembly
      requires assembly != null ==> HEADER_SIZE <= |assembly.content|
    {
      assembly != null ==> HeaderOk(assembly.content, limit)
    }

    constructor ()
      ensures Valid() && Content() == [] && assembly == null
    {
      assembly, chunks, bufferedBytes, chunkIndex, chunkOffset := null, [], 0, 0, 0;
    }

    method Append(chunk: seq<byte>)
      requires Valid()
      modifies Repr()
      ensures Valid() && fresh(Repr() - old(Repr())) && assembly == old(assembly)
      ensures Content() == old(Content()) + chunk
      ensures forall limit :: old(Checked(limit)) ==> Checked(limit)
    {
      assert assembly != null ==> assembly.receivedBytes == |assembly.content| <= assembly.frameLength;
      hide NativeFrameAssembly.Valid, From, HeaderOk, FrameLength;
      if chunk == [] {
        assert Content() + chunk == Content();
        return;
      }
      if assembly == null {
        PushRemaining(chunk);
        assert [] + Buffered() == Buffered() && [] + old(Buffered()) == old(Buffered());
        return;
      }
      AppendAssembling(chunk);
    }

    method AppendAssembling(chunk: seq<byte>)
      requires Valid() && chunk != [] && assembly != null
      modifies Repr()
      ensures Valid() && fresh(Repr() - old(Repr())) && assembly == old(assembly)
      ensures Content() == old(Content()) + chunk
      ensures forall limit :: old(Checked(limit)) ==> Checked(limit)
    {
      assert assembly.receivedBytes == |assembly.content| <= assembly.frameLength;
      hide NativeFrameAssembly.Valid, From, HeaderOk, FrameLength;
      ghost var content, buffered := assembly.content, Buffered();
      var consumed := AppendToAssembly(assembly, chunk);
      assert consumed == 0 || buffered == [];
      if consumed < |chunk| {
        PushRemaining(chunk[consumed..]);
      } else {
        assert Buffered() == buffered + chunk[consumed..];
      }
      ContentGrows(content, buffered, chunk, consumed);
    }

    method PushRemaining(remaining: seq<byte>)
      requires Positioned(chunks, chunkIndex, chunkOffset) && bufferedBytes == |Buffered()| && remaining != []
      modifies this`chunks, this`bufferedBytes
      ensures Positioned(chunks, chunkIndex, chunkOffset) && bufferedBytes == |Buffered()|
      ensures Buffered() == old(Buffered()) + remaining
    {
      PushChunk(chunks, chunkIndex, chunkOffset, remaining);
      chunks := chunks + [remaining];
      bufferedBytes := bufferedBytes + |remaining|;
    }

    /** The next `length` bytes, without taking them. */
    method Peek(length: nat) returns (out: seq<byte>)
      requires Positioned(chunks, chunkIndex, chunkOffset) && 0 < length <= |Buffered()|
      ensures out == Buffered()[..length]
    {
      var first := chunks[chunkIndex];
      var firstBytes := |first| - chunkOffset;
      if firstBytes >= length {
        Advance(chunks, chunkIndex, chunkOffset, length);
        return first[chunkOffset..chunkOffset + length];
      }
      out := [];
      var index: nat, offset: nat := chunkIndex, chunkOffset;
      while |out| < length
        invariant Positioned(chunks, index, offset) && |out| <= length
        invariant Buffered() == out + From(chunks, index, offset) || (|out| == length && out == Buffered()[..length])
      {
        var chunk := chunks[index];
        var bytes := Min(length - |out|, |chunk| - offset);
        Advance(chunks, index, offset, bytes);
        ghost var rest := From(chunks, index, offset);
        SplitAt(out, rest, bytes);
        out := out + chunk[offset..offset + bytes];
        index, offset := index + 1, 0;
      }
    }

    method Read(length: nat) returns (out: seq<byte>)
      requires Positioned(chunks, chunkIndex, chunkOffset) && bufferedBytes == |Buffered()| && 0 < length <= |Buffered()|
      modifies this`chunks, this`bufferedBytes, this`chunkIndex, this`chunkOffset
      ensures Positioned(chunks, chunkIndex, chunkOffset) && bufferedBytes == |Buffered()|
      ensures out == old(Buffered())[..length] && Buffered() == old(Buffered())[length..]
    {
      hide From;
      out := Peek(length);
      var remaining: nat := length;
      ghost var before := Buffered();
      while remaining > 0
        modifies this`chunkIndex, this`chunkOffset
        invariant Positioned(chunks, chunkIndex, chunkOffset) && remaining <= length && chunks == old(chunks)
        invariant Buffered() == before[length - remaining..]
      {
        NotAtEnd(chunks, chunkIndex, chunkOffset);
        var bytes := Min(remaining, |chunks[chunkIndex]| - chunkOffset);
        Skip(bytes);
        DropTwice(before, length - remaining, bytes);
        remaining := remaining - bytes;
      }
      bufferedBytes := bufferedBytes - length;
      Compact();
    }

    /** Move the position on within the current chunk, or to the next one. */
    method Skip(bytes: nat)
      requires Positioned(chunks, chunkIndex, chunkOffset) && chunkIndex < |chunks| && chunkOffset + bytes <= |chunks[chunkIndex]|
      modifies this`chunkIndex, this`chunkOffset
      ensures bytes <= |old(Buffered())|
      ensures Positioned(chunks, chunkIndex, chunkOffset) && Buffered() == old(Buffered())[bytes..]
    {
      Advance(chunks, chunkIndex, chunkOffset, bytes);
      chunkOffset := chunkOffset + bytes;
      if chunkOffset == |chunks[chunkIndex]| {
        chunkIndex, chunkOffset := chunkIndex + 1, 0;
      }
    }

    method Compact()
      requires Positioned(chunks, chunkIndex, chunkOffset)
      modifies this`chunks, this`chunkIndex, this`chunkOffset
      ensures Positioned(chunks, chunkIndex, chunkOffset) && Buffered() == old(Buffered())
    {
      if chunkIndex == |chunks| {
        chunks, chunkIndex, chunkOffset := [], 0, 0;
      } else if chunkIndex >= COMPACTION_THRESHOLD && chunkIndex * 2 >= |chunks| {
        FromStart(chunks, chunkIndex, chunkOffset);
        chunks, chunkIndex := chunks[chunkIndex..], 0;
      }
    }

    /** Move everything that is buffered into the assembly, which has room for it. */
    method DrainInto(assembly: NativeFrameAssembly)
      requires Positioned(chunks, chunkIndex, chunkOffset) && bufferedBytes == |Buffered()|
      requires assembly.Valid() && |assembly.content| + bufferedBytes < assembly.frameLength
      modifies this`chunks, this`bufferedBytes, this`chunkIndex, this`chunkOffset, assembly, assembly.pages
      ensures Positioned(chunks, chunkIndex, chunkOffset) && bufferedBytes == 0 && Buffered() == []
      ensures assembly.Valid() && assembly.content == old(assembly.content) + old(Buffered())
      ensures fresh(set page | page in assembly.pages && page !in old(assembly.pages))
    {
      hide NativeFrameAssembly.Valid, From;
      ghost var all := assembly.content + Buffered();
      while bufferedBytes > 0
        invariant Positioned(chunks, chunkIndex, chunkOffset) && bufferedBytes == |Buffered()|
        invariant assembly.Valid() && |all| < assembly.frameLength && assembly.content + Buffered() == all
        invariant fresh(set page | page in assembly.pages && page !in old(assembly.pages))
      {
        NotAtEnd(chunks, chunkIndex, chunkOffset);
        var chunk := chunks[chunkIndex];
        Advance(chunks, chunkIndex, chunkOffset, |chunk| - chunkOffset);
        var bytes := assembly.Append(chunk[chunkOffset..]);
        Skip(bytes);
        bufferedBytes := bufferedBytes - bytes;
      }
      Compact();
    }

    /** The next complete frame, if there is one. With the limit that its header was checked
        against, this is exactly the first frame of the content. */
    method NextFrame(maxFrameBytes: nat) returns (result: Result<Option<Frame>, ()>)
      requires Valid() && Checked(maxFrameBytes)
      modifies Repr()
      ensures result.Success? ==> Valid() && Checked(maxFrameBytes) && fresh(Repr() - old(Repr()))
      ensures match ParseNext(old(Content()), maxFrameBytes)
              case NeedMore => result == Success(None) && Content() == old(Content())
              case Invalid => result.Failure?
              case Parsed(frame, rest) => result == Success(Some(frame)) && Content() == rest
    {
      hide NativeFrameAssembly.Valid, From, ParseNext, HeaderOk;
      assert assembly == null ==> Content() == Buffered();
      if assembly != null {
        result := NextAssembled(maxFrameBytes);
        return;
      }
      Nothing(Content(), maxFrameBytes);
      if bufferedBytes < HEADER_SIZE { return Success(None); }
      var header := Peek(HEADER_SIZE);
      HeaderExtends(header, Buffered());
      InvalidHeader(Content(), header, maxFrameBytes);
      if !HeaderOk(header, maxFrameBytes) { return Failure(()); }
      var frameLength := FrameLength(header);
      if bufferedBytes < frameLength {
        StartAssembly(frameLength);
        return Success(None);
      }
      result := ReadFrame(frameLength, maxFrameBytes);
    }

    /** The frame under assembly, if it is complete. */
    method NextAssembled(maxFrameBytes: nat) returns (result: Result<Option<Frame>, ()>)
      requires Valid() && Checked(maxFrameBytes) && assembly != null
      modifies Repr()
      ensures result.Success? && Valid() && Checked(maxFrameBytes) && fresh(Repr() - old(Repr()))
      ensures match ParseNext(old(Content()), maxFrameBytes)
              case NeedMore => result == Success(None) && Content() == old(Content())
              case Invalid => false
              case Parsed(frame, rest) => result == Success(Some(frame)) && Content() == rest
    {
      ghost var content := Content();
      HeaderExtends(assembly.content, content);
      if assembly.receivedBytes < assembly.frameLength { return Success(None); }
      var encoded := assembly.Finish();
      assembly := null;
      SplitFirst(encoded, Buffered(), maxFrameBytes);
      assert [] + Buffered() == Buffered();
      result := DecodeFrame(encoded, maxFrameBytes);
    }

    /** Collect a frame of which only a part has arrived. */
    method StartAssembly(frameLength: nat)
      requires Valid() && assembly == null && HEADER_SIZE <= bufferedBytes < frameLength && frameLength == FrameLength(Buffered())
      modifies Repr()
      ensures Valid() && assembly != null && fresh(Repr() - old(Repr())) && Content() == old(Content())
      ensures assembly.content == old(Content())
    {
      hide From, HeaderOk, NativeFrameAssembly.Valid, FrameLength, Shaped, FullPagesHold, PageHolds;
      ghost var before := Buffered();
      var started := new NativeFrameAssembly(frameLength);
      DrainInto(started);
      assembly := started;
      assert [] + before == before && before + [] == before;
    }

    method ReadFrame(frameLength: nat, maxFrameBytes: nat) returns (result: Result<Option<Frame>, ()>)
      requires Valid() && assembly == null && HEADER_SIZE <= frameLength <= bufferedBytes && frameLength == FrameLength(Buffered())
      requires HeaderOk(Buffered(), maxFrameBytes)
      modifies Repr()
      ensures Valid() && assembly == null
      ensures ParseNext(old(Content()), maxFrameBytes).Parsed?
      ensures result == Success(Some(ParseNext(old(Content()), maxFrameBytes).frame))
      ensures Content() == ParseNext(old(Content()), maxFrameBytes).rest
    {
      hide From;
      ghost var before := Buffered();
      assert [] + before == before;
      var encoded := Read(frameLength);
      assert before == encoded + before[frameLength..];
      HeaderExtends(encoded, before);
      SplitFirst(encoded, before[frameLength..], maxFrameBytes);
      assert [] + Buffered() == Buffered();
      result := DecodeFrame(encoded, maxFrameBytes);
    }
  }

  lemma SplitAt<T>(front: seq<T>, rest: seq<T>, n: nat)
    requires n <= |rest|
    ensures front + rest == (front + rest[..n]) + rest[n..]
    ensures (front + rest)[..|front| + n] == front + rest[..n]
  {
  }

  lemma DropTwice<T>(s: seq<T>, a: nat, b: nat)
    requires a + b <= |s|
    ensures s[a..][b..] == s[a + b..]
  {
  }

  lemma ContentGrows(content: seq<byte>, buffered: seq<byte>, chunk: seq<byte>, consumed: nat)
    requires consumed <= |chunk| && (consumed == 0 || buffered == [])
    ensures content + chunk[..consumed] + (buffered + chunk[consumed..]) == content + buffered + chunk
  {
  }

  /** A stream that starts with exactly one frame. */
  lemma {:induction false} SplitFirst(encoded: seq<byte>, rest: seq<byte>, limit: nat)
    requires |encoded| >= HEADER_SIZE && HeaderOk(encoded, limit) && |encoded| == FrameLength(encoded)
    ensures ParseNext(encoded, limit) == Parsed(FrameIn(encoded), [])
    ensures ParseNext(encoded + rest, limit) == Parsed(FrameIn(encoded), rest)
  {
    ParseNextExtends(encoded, rest, limit);
    assert [] + rest == rest;
  }

  lemma Nothing(content: seq<byte>, limit: nat)
    ensures |content| < HEADER_SIZE ==> ParseNext(content, limit).NeedMore?
  {
  }

  lemma {:induction false} InvalidHeader(content: seq<byte>, header: seq<byte>, limit: nat)
    requires |header| == HEADER_SIZE && header <= content
    ensures !HeaderOk(header, limit) ==> ParseNext(content, limit).Invalid?
    ensures HeaderOk(header, limit) ==> HeaderOk(content, limit)
    ensures HeaderOk(header, limit) && |content| < FrameLength(header) ==> ParseNext(content, limit).NeedMore?
  {
    HeaderExtends(header, content);
  }

  /** Decoding checks the header again, and that nothing follows the frame. */
  method DecodeFrame(encoded: seq<byte>, maxFrameBytes: nat) returns (result: Result<Option<Frame>, ()>)
    ensures match ParseNext(encoded, maxFrameBytes)
            case Parsed(frame, rest) => result == if rest == [] then Success(Some(frame)) else Failure(())
            case _ => result.Failure?
  {
    if |encoded| < HEADER_SIZE || !HeaderOk(encoded, maxFrameBytes) || |encoded| < FrameLength(encoded) { return Failure(()); }
    if |encoded| != FrameLength(encoded) { return Failure(()); }
    return Success(Some(FrameIn(encoded)));
  }

  /** Something is buffered only if the position is inside a chunk. */
  lemma NotAtEnd(chunks: seq<seq<byte>>, index: nat, offset: nat)
    requires Positioned(chunks, index, offset)
    ensures From(chunks, index, offset) != [] ==> index < |chunks|
  {
  }

  /** More bytes leave the header of the frame under assembly as it is. */
  method AppendToAssembly(assembly: NativeFrameAssembly, chunk: seq<byte>) returns (consumed: nat)
    requires assembly.Valid() && HEADER_SIZE <= |assembly.content| && assembly.frameLength == FrameLength(assembly.content)
    modifies assembly, assembly.pages
    ensures assembly.Valid() && fresh(set p | p in assembly.pages && p !in old(assembly.pages))
    ensures consumed == Min(|chunk|, assembly.frameLength - |old(assembly.content)|)
    ensures assembly.content == old(assembly.content) + chunk[..consumed]
    ensures assembly.frameLength == FrameLength(assembly.content)
    ensures assembly.receivedBytes == |assembly.content|
    ensures forall limit :: HeaderOk(old(assembly.content), limit) <==> HeaderOk(assembly.content, limit)
  {
    consumed := assembly.Append(chunk);
    HeaderExtends(old(assembly.content), assembly.content);
  }
}
