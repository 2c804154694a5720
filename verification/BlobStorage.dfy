/**
 Publishing a received blob: the bytes go to a temporary file, which is moved over the destination only
 after everything arrived and was synced. Moving is atomic.
 */
module BlobStorage {
  import opened Common
  import opened BlobStreams

  type Path = string

  class FileSystem {
    var files: map<Path, Bytes>

    constructor (files: map<Path, Bytes>)
      ensures this.files == files
    {
      this.files := files;
    }
  }

  /** When the context of the incoming stream is cancelled. */
  datatype Cancellation = Never | BeforeOpen | BeforeClose

  /** What the file system and the context do during one put. `capacity` bytes fit into the file. */
  datatype Faults = Faults(
    cancellation: Cancellation,
    createOk: bool,
    capacity: Option<nat>,
    syncOk: bool,
    closeOk: bool,
    removeOk: bool,
    moveOk: bool)
  {
    predicate Fits(size: nat)
    {
      capacity.None? || size <= capacity.value
    }
  }

  class LocalWriter {
    const fs: FileSystem
    const tmp: Path
    const dest: Path
    const faults: Faults
    var cancelled: bool  // whether the writer's context is done

    constructor (fs: FileSystem, tmp: Path, dest: Path, faults: Faults)
      ensures this.fs == fs && this.tmp == tmp && this.dest == dest && this.faults == faults && !cancelled
    {
      this.fs, this.tmp, this.dest, this.faults := fs, tmp, dest, faults;
      cancelled := false;
    }

    predicate Fits(size: nat)
    {
      faults.Fits(size)
    }

    /** Appends to the temporary file as much as fits. */
    method Write(p: Bytes) returns (n: nat, err: Option<Error>)
      requires tmp in fs.files && Fits(|fs.files[tmp]|)
      modifies fs
      ensures n <= |p| && fs.files == old(fs.files)[tmp := old(fs.files)[tmp] + p[..n]]
      ensures tmp in fs.files && Fits(|fs.files[tmp]|)
      ensures err == None <==> n == |p|
      ensures err == None <==> Fits(|old(fs.files)[tmp]| + |p|)
      ensures err != Some(EOF)
    {
      n, err := |p|, None;
      if !Fits(|fs.files[tmp]| + |p|) {
        n, err := faults.capacity.value - |fs.files[tmp]|, Some(Failure(28));
      }
      fs.files := fs.files[tmp := fs.files[tmp] + p[..n]];
    }

    /** Publishes the temporary file, or leaves everything but the temporary file alone. */
    method Close() returns (err: Option<Error>)
      requires tmp in fs.files
      modifies fs
      ensures err == None <==> !cancelled && faults.syncOk && faults.closeOk && faults.moveOk
      ensures err == None ==> fs.files == (old(fs.files) - {tmp})[dest := old(fs.files)[tmp]]
      ensures err != None ==>
                fs.files == if cancelled && faults.removeOk then old(fs.files) - {tmp} else old(fs.files)
    {
      if cancelled {
        if faults.removeOk {
          fs.files := fs.files - {tmp};
        }
        return Some(Failure(1));
      }
      if !faults.syncOk || !faults.closeOk {
        return Some(Failure(5));
      }
      if !faults.moveOk {
        return Some(Failure(18));
      }
      fs.files := (fs.files - {tmp})[dest := fs.files[tmp]];
      return None;
    }
  }

  /** LocalStorage.Writer: an empty temporary file, unless the context is done or creation fails. */
  method OpenWriter(fs: FileSystem, tmp: Path, dest: Path, faults: Faults)
    returns (w: LocalWriter?, err: Option<Error>)
    requires tmp !in fs.files && tmp != dest
    modifies fs
    ensures w != null <==> err == None
    ensures err == None <==> faults.cancellation != BeforeOpen && faults.createOk
    ensures w == null ==> fs.files == old(fs.files)
    ensures w != null ==> fresh(w) && w.fs == fs && w.tmp == tmp && w.dest == dest && w.faults == faults && !w.cancelled
    ensures w != null ==> fs.files == old(fs.files)[tmp := []]
  {
    if faults.cancellation == BeforeOpen {
      return null, Some(Failure(1));
    }
    if !faults.createOk {
      return null, Some(Failure(2));
    }
    fs.files := fs.files[tmp := []];
    w := new LocalWriter(fs, tmp, dest, faults);
    return w, None;
  }

  /** Halfway through copying: the temporary file holds what was received, and no other file has changed. */
  ghost predicate Copying(w: LocalWriter, r: BlobStreamReader, files: map<Path, Bytes>, content: Bytes)
    reads w.fs, r, r.stream
  {
    && r.Valid() && w.tmp in w.fs.files && w.Fits(|w.fs.files[w.tmp]|)
    && w.fs.files == files[w.tmp := w.fs.files[w.tmp]]
    && w.fs.files[w.tmp] + r.Unread() == content
  }

  /** Writing what was read; a write that fails has written a part of it. */
  method WriteOut(w: LocalWriter, p: Bytes, ghost files: map<Path, Bytes>) returns (err: Option<Error>)
    requires w.tmp in w.fs.files && w.Fits(|w.fs.files[w.tmp]|) && w.fs.files == files[w.tmp := w.fs.files[w.tmp]]
    modifies w.fs
    ensures w.tmp in w.fs.files && w.Fits(|w.fs.files[w.tmp]|) && w.fs.files == files[w.tmp := w.fs.files[w.tmp]]
    ensures old(w.fs.files[w.tmp]) <= w.fs.files[w.tmp] <= old(w.fs.files[w.tmp]) + p
    ensures err == None ==> w.fs.files[w.tmp] == old(w.fs.files[w.tmp]) + p
    ensures err == None <==> w.Fits(|old(w.fs.files[w.tmp])| + |p|)
    ensures err != Some(EOF)
  {
    ghost var written := w.fs.files[w.tmp];
    var n;
    n, err := w.Write(p);
    assert w.fs.files[w.tmp] == written + p[..n];
    assert n == |p| ==> p[..n] == p;
  }

  /** One round of the copy loop. `done` says that the copy has ended, with or without an error. */
  method CopyOnce(w: LocalWriter, r: BlobStreamReader, buf: array<Byte>, ghost files: map<Path, Bytes>, ghost content: Bytes)
    returns (err: Option<Error>, done: bool)
    requires buf.Length > 0 && Copying(w, r, files, content)
    modifies w.fs, r, r.stream, buf
    ensures w.tmp in w.fs.files && w.fs.files == files[w.tmp := w.fs.files[w.tmp]] && w.fs.files[w.tmp] <= content
    ensures !done ==> Copying(w, r, files, content)
    ensures !done ==> |r.Unread()| < old(|r.Unread()|) || (|r.Unread()| == old(|r.Unread()|) && r.eofReached && !old(r.eofReached))
    ensures done && err == None ==> w.fs.files[w.tmp] == content && r.stream.end == EOF && w.Fits(|content|)
    ensures done && err != None ==> r.stream.end != EOF || !w.Fits(|content|)
  {
    ghost var written, eof := w.fs.files[w.tmp], r.eofReached;
    var nr, er := r.Read(buf);
    ghost var rest := r.Unread();
    Regroup(written, buf[..nr], rest);
    if nr > 0 {
      err := WriteOut(w, buf[..nr], files);
      assert w.fs.files[w.tmp] <= written + buf[..nr];
      PartOf(w.fs.files[w.tmp], written + buf[..nr], rest, content);
      if err != None {
        return err, true;
      }
    }
    if er == Some(EOF) {
      return None, true;
    }
    return er, er != None;
  }

  lemma PartOf(a: Bytes, b: Bytes, rest: Bytes, content: Bytes)
    requires a <= b && b + rest == content
    ensures a <= content
  {
  }

  /** io.Copy from the chunk reader to the temporary file, with a buffer of any size. */
  method Copy(w: LocalWriter, r: BlobStreamReader, bufSize: nat) returns (err: Option<Error>)
    requires bufSize > 0 && r.Valid() && w.tmp in w.fs.files && w.fs.files[w.tmp] == []
    modifies w.fs, r, r.stream
    ensures w.tmp in w.fs.files
    ensures w.fs.files[w.tmp] <= old(r.Unread()) && w.fs.files == old(w.fs.files)[w.tmp := w.fs.files[w.tmp]]
    ensures err == None ==> w.fs.files[w.tmp] == old(r.Unread())
    ensures err == None <==> r.stream.end == EOF && w.Fits(|old(r.Unread())|)
  {
    var buf := new Byte[bufSize];
    ghost var content, files := r.Unread(), w.fs.files;
    while true
      invariant Copying(w, r, files, content)
      decreases |r.Unread()|, !r.eofReached
    {
      var done;
      err, done := CopyOnce(w, r, buf, files, content);
      if done {
        return;
      }
    }
  }

  /** The rest of a put once the writer is open: copy, and then publish or, after an error, cancel. */
  method CopyAndClose(w: LocalWriter, r: BlobStreamReader, bufSize: nat) returns (err: Option<Error>)
    requires bufSize > 0 && r.Valid() && w.tmp in w.fs.files && w.fs.files[w.tmp] == [] && !w.cancelled
    modifies w, w.fs, r, r.stream
    ensures err == None <==>
              && r.stream.end == EOF && w.Fits(|old(r.Unread())|) && w.faults.cancellation != BeforeClose
              && w.faults.syncOk && w.faults.closeOk && w.faults.moveOk
    ensures err == None ==> w.fs.files == (old(w.fs.files) - {w.tmp})[w.dest := old(r.Unread())]
    ensures err != None ==> w.fs.files - {w.tmp} == old(w.fs.files) - {w.tmp}
    ensures err != None && w.faults.removeOk
            && (r.stream.end != EOF || !w.Fits(|old(r.Unread())|) || w.faults.cancellation == BeforeClose) ==>
              w.fs.files == old(w.fs.files) - {w.tmp}
    ensures err != None && r.stream.end == EOF && w.Fits(|old(r.Unread())|) && w.faults.cancellation != BeforeClose ==>
              w.tmp in w.fs.files
  {
    err := Copy(w, r, bufSize);
    if err != None {
      w.cancelled := true;
      var _ := w.Close();
      return;
    }
    if w.faults.cancellation == BeforeClose {
      w.cancelled := true;
    }
    err := w.Close();
  }

  /** The writer was opened, and everything arrived and fitted before the context was cancelled. */
  ghost predicate Received(filename: Option<Path>, faults: Faults, size: nat, end: Error)
  {
    && filename.Some? && filename.value != ""
    && faults.cancellation == Never && faults.createOk
    && faults.Fits(size) && end == EOF
  }

  ghost predicate Publishes(filename: Option<Path>, faults: Faults, size: nat, end: Error)
  {
    Received(filename, faults, size, end) && faults.syncOk && faults.closeOk && faults.moveOk
  }

  /** Service.PutStream: exactly when nothing goes wrong the destination holds all received bytes and
      nothing else changed; otherwise at most the temporary file is left behind. */
  method PutStream(fs: FileSystem, filename: Option<Path>, tmp: Path, stream: ChunkSource, bufSize: nat, faults: Faults)
    returns (err: Option<Error>)
    requires bufSize > 0 && tmp !in fs.files && filename != Some(tmp)
    modifies fs, stream
    ensures err == None <==> Publishes(filename, faults, |old(Flatten(stream.chunks))|, stream.end)
    ensures err == None ==> fs.files == old(fs.files)[filename.value := old(Flatten(stream.chunks))]
    ensures err != None ==> fs.files - {tmp} == old(fs.files)
    ensures err != None && faults.removeOk ==>
              (fs.files == old(fs.files) <==> !Received(filename, faults, |old(Flatten(stream.chunks))|, stream.end))
  {
    if filename == None {
      return Some(Failure(3));
    }
    if filename.value == "" {
      return Some(Failure(3));
    }
    var reader := new BlobStreamReader(stream);
    var w;
    w, err := OpenWriter(fs, tmp, filename.value, faults);
    if err != None {
      return;
    }
    err := CopyAndClose(w, reader, bufSize);
  }

  /** A put end to end: any sequence of client writes, cut into chunks of any size, received through
      buffers of any size, and published whole or not at all. If sending fails, the stream breaks off. */
  method PutBlob(fs: FileSystem, filename: Option<Path>, tmp: Path, writes: seq<Bytes>, chunkSize: nat,
                 limit: Option<nat>, bufSize: nat, faults: Faults)
    returns (sendErr: Option<Error>, err: Option<Error>)
    requires chunkSize > 0 && bufSize > 0 && tmp !in fs.files && filename != Some(tmp)
    modifies fs
    ensures err == None <==> sendErr == None && Publishes(filename, faults, |Flatten(writes)|, EOF)
    ensures err == None ==> fs.files == old(fs.files)[filename.value := Flatten(writes)]
    ensures err != None ==> fs.files - {tmp} == old(fs.files)
    ensures limit == None ==> sendErr == None
  {
    var sink := new ChunkSink(limit);
    var client := new StreamWriter(sink, chunkSize);
    sendErr := WriteAll(client, writes);
    var stream := new ChunkSource(sink.sent, if sendErr == None then EOF else Failure(1));
    err := PutStream(fs, filename, tmp, stream, bufSize, faults);
  }
}
