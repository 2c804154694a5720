/**
 Chunked streaming of blobs. The sender cuts content into chunks, the receiver reassembles the chunks
 through reads of any size, and a received blob is published by moving a finished temporary file.
 */
module BlobStreams {
  import opened Common

  datatype Error = EOF | Failure(code: int)

  /** The receiving end of a gRPC stream: messages still to come, and how the stream ends. */
  class ChunkSource {
    var chunks: seq<Bytes>
    const end: Error

    constructor (chunks: seq<Bytes>, end: Error)
      ensures this.chunks == chunks && this.end == end
    {
      this.chunks, this.end := chunks, end;
    }

    method Recv() returns (chunk: Bytes, err: Option<Error>)
      modifies this
      ensures old(chunks) == [] ==> err == Some(end) && chunks == []
      ensures old(chunks) != [] ==> err == None && chunk == old(chunks)[0] && chunks == old(chunks)[1..]
    {
      if chunks == [] {
        return [], Some(end);
      }
      chunk, err := chunks[0], None;
      chunks := chunks[1..];
    }
  }

  /** The sending end: what was sent, and after how many messages sending fails. */
  class ChunkSink {
    var sent: seq<Bytes>
    const limit: Option<nat>

    constructor (limit: Option<nat>)
      ensures sent == [] && this.limit == limit
    {
      sent, this.limit := [], limit;
    }

    /** Copies the payload; never fails with EOF. */
    method Send(payload: Bytes) returns (err: Option<Error>)
      modifies this
      ensures sent == if err == None then old(sent) + [payload] else old(sent)
      ensures err != Some(EOF) && (limit == None ==> err == None)
    {
      if limit.Some? && |sent| >= limit.value {
        return Some(Failure(0));
      }
      sent := sent + [payload];
      return None;
    }
  }

  /** Go's copy, for a source that fits. */
  method CopyInto(out: array<Byte>, offset: nat, src: Bytes)
    requires offset + |src| <= out.Length
    modifies out
    ensures out[..offset] == old(out[..offset])
    ensures out[offset..offset + |src|] == src
    ensures out[offset + |src|..] == old(out[offset + |src|..])
  {
    forall k | 0 <= k < |src| {
      out[offset + k] := src[k];
    }
  }

  /** Handing over the first `k` bytes of a chunk keeps the whole. */
  lemma Cut(before: Bytes, chunk: Bytes, k: nat, rest: Bytes)
    requires k <= |chunk|
    ensures before + chunk[..k] + (chunk[k..] + rest) == before + (chunk + rest)
  {
    assert chunk == chunk[..k] + chunk[k..];
  }

  function Min(a: nat, b: nat): nat
  {
    if a < b then a else b
  }

  // ---------- Receiving ----------

  class BlobStreamReader {
    var lastPayload: Option<Bytes>
    var lastOffset: nat
    var eofReached: bool
    const stream: ChunkSource

    ghost predicate Valid()
      reads this, stream
    {
      && (lastPayload.Some? ==> lastOffset < |lastPayload.value|)
      && (eofReached ==> lastPayload.None? && stream.chunks == [] && stream.end == EOF)
    }

    /** The bytes received or to be received that no read has returned yet. */
    ghost function Unread(): Bytes
      requires Valid()
      reads this, stream
    {
      (if lastPayload.Some? then lastPayload.value[lastOffset..] else []) + Flatten(stream.chunks)
    }

    constructor (stream: ChunkSource)
      ensures Valid() && this.stream == stream && Unread() == Flatten(stream.chunks) && !eofReached
    {
      this.stream := stream;
      lastPayload, lastOffset, eofReached := None, 0, false;
    }

    /** Starts a read with what is left of the last payload; `done` when it alone fills the buffer. */
    method UseLastPayload(out: array<Byte>) returns (offset: nat, done: bool)
      requires Valid() && !eofReached
      modifies this, out
      ensures Valid() && !eofReached && offset <= out.Length
      ensures out[..offset] + Unread() == old(Unread())
      ensures if done then offset == out.Length else lastPayload == None
    {
      offset, done := 0, false;
      if lastPayload.Some? {
        var payload := lastPayload.value;
        offset := |payload| - lastOffset;
        if out.Length < offset {
          CopyInto(out, 0, payload[lastOffset..lastOffset + out.Length]);
          Cut([], payload[lastOffset..], out.Length, Flatten(stream.chunks));
          lastOffset := lastOffset + out.Length;
          return out.Length, true;
        }
        CopyInto(out, 0, payload[lastOffset..]);
        lastPayload := None;
      }
    }

    /** One message of the read loop: what does not fit is kept for the next read. */
    method ReceiveInto(out: array<Byte>, offset: nat) returns (offset': nat, err: Option<Error>)
      requires Valid() && !eofReached && lastPayload == None && offset < out.Length
      modifies this, stream, out
      ensures Valid() && !eofReached && offset <= offset' <= out.Length
      ensures out[..offset'] + Unread() == old(out[..offset] + Unread())
      ensures err == None ==> |stream.chunks| < |old(stream.chunks)| && (lastPayload.Some? ==> offset' == out.Length)
      ensures err != None ==> offset' == offset && lastPayload == None && stream.chunks == [] && err == Some(stream.end)
    {
      ghost var before, unread := out[..offset], Unread();
      var chunk, recvErr := stream.Recv();
      if recvErr != None {
        return offset, recvErr;
      }
      var lenToWrite: nat := |chunk|;
      if out.Length - offset < |chunk| {
        lenToWrite := out.Length - offset;
        lastPayload := Some(chunk);
        lastOffset := lenToWrite;
      }
      CopyInto(out, offset, chunk[..lenToWrite]);
      assert out[..offset + lenToWrite] == before + chunk[..lenToWrite];
      Cut(before, chunk, lenToWrite, Flatten(stream.chunks));
      return offset + lenToWrite, None;
    }

    /** Returns the next unread bytes: as many as fit unless the stream ends or fails first. */
    method Read(out: array<Byte>) returns (n: nat, err: Option<Error>)
      requires Valid()
      modifies this, stream, out
      ensures Valid()
      ensures n <= out.Length && out[..n] + Unread() == old(Unread())
      ensures err == None ==> n == out.Length || eofReached
      ensures err == Some(EOF) <==> old(eofReached)
      ensures err == Some(EOF) ==> n == 0
      ensures err != None && err != Some(EOF) ==> err == Some(stream.end) && stream.chunks == [] && lastPayload == None
    {
      if eofReached {
        return 0, Some(EOF);
      }
      var offset, done := UseLastPayload(out);
      if done {
        return offset, None;
      }
      while offset < out.Length
        invariant 0 <= offset <= out.Length && Valid() && !eofReached
        invariant out[..offset] + Unread() == old(Unread())
        invariant lastPayload.Some? ==> offset == out.Length
        decreases |stream.chunks|
      {
        offset, err := ReceiveInto(out, offset);
        if err == Some(EOF) {
          eofReached := true;
          break;
        }
        if err != None {
          return offset, err;
        }
      }
      return offset, None;
    }
  }

  // ---------- Sending ----------

  /** How one read of a content reader behaves: at most `most` bytes, and whether reaching the end is
      reported together with the last bytes. */
  datatype ReadPlan = ReadPlan(most: nat, endWithData: bool)

  /** A reader with a sticky end. The plan lets reads be short, or empty, in any finite pattern. */
  class ContentReader {
    var rest: Bytes
    var plan: seq<ReadPlan>
    const end: Error

    constructor (content: Bytes, plan: seq<ReadPlan>, end: Error)
      ensures rest == content && this.plan == plan && this.end == end
    {
      rest, this.plan, this.end := content, plan, end;
    }

    method Read(out: array<Byte>) returns (n: nat, err: Option<Error>)
      requires out.Length > 0
      modifies this, out
      ensures n <= out.Length && out[..n] + rest == old(rest)
      ensures err == None || (err == Some(end) && rest == [])
      ensures |rest| < |old(rest)| || |plan| < |old(plan)| || (n == 0 && err == Some(end))
      ensures |rest| <= |old(rest)| && |plan| <= |old(plan)|
      ensures n == 0 && |plan| == |old(plan)| ==> err == Some(end)
    {
      var most, endWithData := out.Length, false;
      if plan != [] {
        most, endWithData := Min(out.Length, plan[0].most), plan[0].endWithData;
        plan := plan[1..];
      }
      n := Min(most, |rest|);
      CopyInto(out, 0, rest[..n]);
      ghost var was := rest;
      err := if rest == [] || (endWithData && n == |rest|) then Some(end) else None;
      rest := rest[n..];
      assert out[..n] == was[..n];
    }
  }

  /** Non-empty chunks of at most `size` bytes. */
  ghost predicate ProperChunks(chunks: seq<Bytes>, size: nat)
  {
    forall i :: 0 <= i < |chunks| ==> 0 < |chunks[i]| <= size
  }

  /** Sends the whole content in proper chunks and reports how the content ended; if sending fails,
      what was sent is the beginning of the content. */
  method StreamContent(sender: ChunkSink, content: ContentReader, chunkSize: nat) returns (err: Option<Error>)
    requires chunkSize > 0 && ProperChunks(sender.sent, chunkSize)
    modifies sender, content
    ensures ProperChunks(sender.sent, chunkSize)
    ensures Flatten(sender.sent) <= old(Flatten(sender.sent) + content.rest)
    ensures err == None ==> content.end == EOF && Flatten(sender.sent) == old(Flatten(sender.sent) + content.rest)
    ensures sender.limit == None ==>
              && Flatten(sender.sent) == old(Flatten(sender.sent) + content.rest)
              && err == if content.end == EOF then None else Some(content.end)
  {
    ghost var whole := Flatten(sender.sent) + content.rest;
    var payload := new Byte[chunkSize];
    while true
      invariant Flatten(sender.sent) + content.rest == whole
      invariant ProperChunks(sender.sent, chunkSize)
      decreases |content.rest|, |content.plan|
    {
      ghost var before := content.rest;
      var n;
      n, err := content.Read(payload);
      if n > 0 {
        FlattenSnoc(sender.sent, payload[..n]);
        assert Flatten(sender.sent) + before == Flatten(sender.sent) + payload[..n] + content.rest;
        err := sender.Send(payload[..n]);
      }
      if err == Some(EOF) {
        return None;
      }
      if err != None {
        return;
      }
    }
  }

  lemma NextSlice(p: Bytes, n: nat, l: nat)
    requires n + l <= |p|
    ensures p[n..][l..] == p[n + l..] && p[..n + l] == p[..n] + p[n..][..l]
  {
  }

  /** The client side of a put: Write cuts what it is given into chunks of at most the buffer's size. */
  class StreamWriter {
    const s: ChunkSink
    const buf: array<Byte>

    constructor (s: ChunkSink, chunkSize: nat)
      requires chunkSize > 0
      ensures this.s == s && fresh(buf) && buf.Length == chunkSize
    {
      this.s := s;
      this.buf := new Byte[chunkSize];
    }

    /** Copies a chunk into the buffer and sends it. */
    method SendChunk(chunk: Bytes) returns (err: Option<Error>)
      requires 0 < |chunk| <= buf.Length && ProperChunks(s.sent, buf.Length)
      modifies s, buf
      ensures ProperChunks(s.sent, buf.Length)
      ensures Flatten(s.sent) == if err == None then old(Flatten(s.sent)) + chunk else old(Flatten(s.sent))
      ensures s.limit == None ==> err == None
    {
      CopyInto(buf, 0, chunk);
      assert buf[..|chunk|] == chunk;
      FlattenSnoc(s.sent, chunk);
      err := s.Send(buf[..|chunk|]);
    }

    /** Everything up to the reported count was sent, in order and in proper chunks. */
    method Write(p: Bytes) returns (n: nat, err: Option<Error>)
      requires buf.Length > 0 && ProperChunks(s.sent, buf.Length)
      modifies s, buf
      ensures ProperChunks(s.sent, buf.Length)
      ensures n <= |p| && Flatten(s.sent) == old(Flatten(s.sent)) + p[..n]
      ensures err == None ==> n == |p|
      ensures s.limit == None ==> err == None
    {
      n := 0;
      var rest := p;
      ghost var before := Flatten(s.sent);
      while |rest| > 0
        invariant n <= |p| && rest == p[n..]
        invariant ProperChunks(s.sent, buf.Length)
        invariant Flatten(s.sent) == before + p[..n]
        decreases |rest|
      {
        var l := Min(buf.Length, |rest|);
        NextSlice(p, n, l);
        Regroup(before, p[..n], rest[..l]);
        err := SendChunk(rest[..l]);
        if err != None {
          return;
        }
        rest := rest[l..];
        n := n + l;
      }
      assert p[..n] == p;
      return n, None;
    }
  }

  /** A client that writes a sequence of slices. */
  method WriteAll(w: StreamWriter, writes: seq<Bytes>) returns (err: Option<Error>)
    requires w.buf.Length > 0 && w.s.sent == []
    modifies w.s, w.buf
    ensures ProperChunks(w.s.sent, w.buf.Length)
    ensures err == None ==> Flatten(w.s.sent) == Flatten(writes)
    ensures w.s.limit == None ==> err == None
  {
    for i := 0 to |writes|
      invariant ProperChunks(w.s.sent, w.buf.Length)
      invariant Flatten(w.s.sent) == Flatten(writes[..i])
    {
      var n;
      n, err := w.Write(writes[i]);
      if err != None {
        return;
      }
      assert writes[..i + 1] == writes[..i] + [writes[i]];
      FlattenSnoc(writes[..i], writes[i]);
      assert writes[i][..n] == writes[i];
    }
    assert writes[..|writes|] == writes;
    return None;
  }

  /** A client that reads with buffers of the given sizes: what it gets is the beginning of the content,
      and the whole of it once the end is reported. */
  method ReadWith(r: BlobStreamReader, sizes: seq<nat>) returns (got: Bytes, err: Option<Error>)
    requires r.Valid()
    modifies r, r.stream
    ensures r.Valid() && got + r.Unread() == old(r.Unread())
    ensures err == Some(EOF) ==> got == old(r.Unread()) && r.stream.end == EOF
    ensures err == None && !r.eofReached ==> |got| == Total(sizes)
    ensures err == None && r.eofReached ==> got == old(r.Unread())
    ensures err != None ==> err == Some(r.stream.end)
  {
    got, err := [], None;
    for i := 0 to |sizes|
      invariant r.Valid() && got + r.Unread() == old(r.Unread())
      invariant err == None && (r.eofReached || |got| == Total(sizes[..i]))
    {
      var out := new Byte[sizes[i]];
      var n;
      n, err := r.Read(out);
      Regroup(got, out[..n], r.Unread());
      got := got + out[..n];
      if err != None {
        return;
      }
      TotalSnoc(sizes, i);
    }
    assert sizes[..|sizes|] == sizes;
  }

  function Total(sizes: seq<nat>): nat
  {
    if sizes == [] then 0 else Total(sizes[..|sizes| - 1]) + sizes[|sizes| - 1]
  }

  lemma TotalSnoc(sizes: seq<nat>, i: nat)
    requires i < |sizes|
    ensures Total(sizes[..i + 1]) == Total(sizes[..i]) + sizes[i]
  {
    assert sizes[..i + 1][..i] == sizes[..i];
  }

  /** GetStream end to end: the server streams what it reads until its content ends or fails or sending
      fails, and the client reads in pieces of any size. The client sees a beginning of the content, and the
      end of file only after all of it. */
  method GetBlob(content: Bytes, plan: seq<ReadPlan>, end: Error, limit: Option<nat>, chunkSize: nat, sizes: seq<nat>)
    returns (got: Bytes, err: Option<Error>)
    requires chunkSize > 0
    ensures got <= content
    ensures err == Some(EOF) ==> got == content && end == EOF
    ensures end == EOF && limit == None ==> err == None || err == Some(EOF)
    ensures err == None ==> got == content || |got| == Total(sizes)
  {
    var sent, streamErr := ServeContent(content, plan, end, limit, chunkSize);
    var source := new ChunkSource(sent, if streamErr == None then EOF else Failure(2));  // the status of the call
    var reader := new BlobStreamReader(source);
    got, err := ReadWith(reader, sizes);
    PrefixOfPrefix(got, Flatten(sent), content);
  }

  /** What the server sends of its content, and how its side of the call ends. */
  method ServeContent(content: Bytes, plan: seq<ReadPlan>, end: Error, limit: Option<nat>, chunkSize: nat)
    returns (sent: seq<Bytes>, err: Option<Error>)
    requires chunkSize > 0
    ensures ProperChunks(sent, chunkSize) && Flatten(sent) <= content
    ensures err == None ==> Flatten(sent) == content && end == EOF
    ensures end == EOF && limit == None ==> err == None
  {
    var sink := new ChunkSink(limit);
    var file := new ContentReader(content, plan, end);
    err := StreamContent(sink, file, chunkSize);
    sent := sink.sent;
  }

  lemma PrefixOfPrefix(a: Bytes, b: Bytes, c: Bytes)
    requires a <= b && b <= c
    ensures a <= c
  {
  }
}
