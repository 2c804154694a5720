/**
 The pipeline of writeLogStream: a reader goroutine feeds a bounded entry channel, a buffering
 goroutine renders and filters entries into one of two reused buffers and hands full buffers over
 an unbuffered channel, and a writer goroutine copies the buffer it was handed to the output.

 Buffers are kept in a small store and referred to by number, so that two goroutines really can
 look at the same buffer; that the writer's buffer is left alone is then something to prove.
 */
module LogPipeline {
  import opened Common
  import opened LogEntries

  const CHAN_SIZE: nat := 65536
  const MAX_WRITE_BUF_SIZE: nat := 262144
  const NEWLINE: Byte := 10

  datatype EntryInfo = EntryInfo(entry: Entry, prefix: Bytes)

  /** What rendering wrote, and whether it finished without an error. */
  datatype Rendering = Rendering(bytes: Bytes, ok: bool)

  /** `filter` maps a rendered message to its submatches: the whole match first, then the groups. */
  datatype Config = Config(
    tenants: seq<string>,
    render: EntryInfo -> Rendering,
    filter: Option<Bytes -> Option<seq<Bytes>>>)

  /** One invocation: its configuration, everything the stream will deliver, and how it ends. */
  datatype Job = Job(cfg: Config, input: seq<EntryInfo>, streamFails: bool)

  // ---------- What an entry contributes to the output ----------

  predicate Wanted(cfg: Config, ei: EntryInfo)
  {
    cfg.tenants == [] || ei.entry.tenant in cfg.tenants
  }

  function Selected(cfg: Config, text: Bytes): Bytes
  {
    match cfg.filter
    case None => text
    case Some(f) =>
      match f(text)
      case None => []
      case Some(matches) => if |matches| > 1 then Flatten(matches[1..]) + [NEWLINE] else text
  }

  function Emit(cfg: Config, ei: EntryInfo): Bytes
  {
    if Wanted(cfg, ei) && cfg.render(ei).ok then Selected(cfg, cfg.render(ei).bytes) else []
  }

  function EmitAll(cfg: Config, eis: seq<EntryInfo>): Bytes
  {
    if eis == [] then [] else EmitAll(cfg, eis[..|eis| - 1]) + Emit(cfg, eis[|eis| - 1])
  }

  /** The body of the receive case: the pending buffer afterwards, and whether rendering succeeded. */
  function Buffered(cfg: Config, pending: Bytes, ei: EntryInfo): (r: Rendering)
  {
    if !Wanted(cfg, ei) then Rendering(pending, true)
    else
      var text := cfg.render(ei);
      if text.ok then Rendering(pending + Selected(cfg, text.bytes), true)
      else Rendering(pending + text.bytes, false)
  }

  /** The receive case as it is coded: render in place, look at the tail, truncate, rewrite. An entry of a
      tenant not asked for adds nothing. Otherwise, unless rendering fails, the entry adds its whole text without
      a filter or if the filter matches and has no groups, the groups and a newline if it has some, and nothing
      if the filter does not match. */
  method BufferEntry(cfg: Config, pending0: Bytes, ei: EntryInfo) returns (pending: Bytes, ok: bool)
    ensures Rendering(pending, ok) == Buffered(cfg, pending0, ei)
    ensures ok ==> pending == pending0 + Emit(cfg, ei)
    ensures cfg.tenants != [] && ei.entry.tenant !in cfg.tenants ==> ok && pending == pending0
    ensures cfg.tenants == [] || ei.entry.tenant in cfg.tenants ==>
              var text := cfg.render(ei);
              && ok == text.ok
              && (!ok ==> pending == pending0 + text.bytes)
              && (ok && cfg.filter.None? ==> pending == pending0 + text.bytes)
              && (ok && cfg.filter.Some? ==>
                    var found := cfg.filter.value(text.bytes);
                    && (found.None? ==> pending == pending0)
                    && (found.Some? && |found.value| <= 1 ==> pending == pending0 + text.bytes)
                    && (found.Some? && |found.value| > 1 ==> pending == pending0 + Flatten(found.value[1..]) + [NEWLINE]))
  {
    pending, ok := pending0, true;
    if |cfg.tenants| != 0 {
      if ei.entry.tenant !in cfg.tenants {
        return;
      }
    }
    var startLen := |pending|;
    var rendering := cfg.render(ei);
    pending := pending + rendering.bytes;
    if !rendering.ok {
      return pending, false;
    }
    assert pending[startLen..] == rendering.bytes;
    if cfg.filter.Some? {
      var found := cfg.filter.value(pending[startLen..]);
      if found.None? {
        pending := pending[..startLen];
      } else if |found.value| > 1 {
        var matches := found.value;
        var scratch: Bytes := [];
        for i := 1 to |matches|
          invariant scratch == Flatten(matches[1..i])
        {
          FlattenSlice(matches, 1, i);
          scratch := scratch + matches[i];
        }
        assert matches[1..|matches|] == matches[1..];
        pending := pending[..startLen];
        pending := pending + scratch;
        pending := pending + [NEWLINE];
      }
    }
  }

  // ---------- The three goroutines ----------

  datatype Reader = Peeking | Sending(ei: EntryInfo) | ReaderDone

  /** After the buffering goroutine returns, `good` bytes of the pending buffer are whole messages. */
  datatype Bufferer = Selecting | BuffererDone(good: nat)

  /** `Writing` holds the slice passed to out.Write: a buffer, its length, and what is copied so far. */
  datatype Writer = Receiving | Writing(buf: nat, len: nat, off: nat) | WriterDone

  datatype Failure = StreamFailed | RenderFailed | WriteFailed

  datatype State = State(
    src: seq<EntryInfo>,        // what the stream still holds
    entryChan: seq<EntryInfo>,  // closed exactly when the reader is done
    reader: Reader,
    bufs: seq<Bytes>,
    pending: nat,
    writing: nat,
    recvNil: bool,              // the bufferer has replaced entryChan by nil
    bufferer: Bufferer,
    writer: Writer,
    out: Bytes,
    err: Option<Failure>)       // the group's first error; set exactly when its context is cancelled

  datatype Step =
    | ReadPeek | ReadSend | ReadCancel
    | BufReceive | BufSeeClosed | BufSend | BufReturn | BufCancel
    | WriteSome(n: nat) | WriteFinish | WriteFail | WriteSeeClosed

  function Init(job: Job): State
  {
    State(job.input, [], Peeking, [[], []], 0, 1, false, Selecting, Receiving, [], None)
  }

  ghost predicate WellFormed(s: State)
  {
    |s.bufs| == 2 && s.pending < 2 && s.writing == 1 - s.pending
  }

  ghost predicate Enabled(s: State, step: Step)
    requires WellFormed(s)
  {
    match step
    case ReadPeek => s.reader.Peeking?
    case ReadSend => s.reader.Sending? && s.src != [] && |s.entryChan| < CHAN_SIZE
    case ReadCancel => s.reader.Sending? && s.err.Some?
    case BufReceive => CanReceive(s) && s.entryChan != []
    case BufSeeClosed => CanReceive(s) && s.entryChan == [] && s.reader.ReaderDone?
    case BufSend => s.bufferer.Selecting? && s.bufs[s.pending] != [] && s.writer.Receiving?
    case BufReturn => s.bufferer.Selecting? && s.bufs[s.pending] == [] && s.recvNil
    case BufCancel => s.bufferer.Selecting? && s.err.Some?
    case WriteSome(n) => s.writer.Writing? && WriterInBounds(s) && 0 < n <= s.writer.len - s.writer.off
    case WriteFinish => s.writer.Writing? && s.writer.off == s.writer.len
    case WriteFail => s.writer.Writing?
    case WriteSeeClosed => s.writer.Receiving? && s.bufferer.BuffererDone?
  }

  ghost predicate CanReceive(s: State)
    requires WellFormed(s)
  {
    s.bufferer.Selecting? && !s.recvNil && |s.bufs[s.pending]| <= MAX_WRITE_BUF_SIZE
  }

  ghost predicate WriterInBounds(s: State)
    requires WellFormed(s) && s.writer.Writing?
  {
    s.writer.buf < 2 && s.writer.off <= s.writer.len <= |s.bufs[s.writer.buf]|
  }

  function FirstError(err: Option<Failure>, e: Failure): Option<Failure>
  {
    if err.Some? then err else Some(e)
  }

  ghost function Apply(job: Job, s: State, step: Step): State
    requires WellFormed(s) && Enabled(s, step)
  {
    match step
    case ReadPeek =>
      if s.src != [] then s.(reader := Sending(s.src[0]))
      else s.(reader := ReaderDone, err := if job.streamFails then FirstError(s.err, StreamFailed) else s.err)
    case ReadSend => s.(entryChan := s.entryChan + [s.reader.ei], src := s.src[1..], reader := Peeking)
    case ReadCancel => s.(reader := ReaderDone)
    case BufReceive =>
      var r := Buffered(job.cfg, s.bufs[s.pending], s.entryChan[0]);
      var s' := s.(entryChan := s.entryChan[1..], bufs := s.bufs[s.pending := r.bytes]);
      if r.ok then s'
      else s'.(bufferer := BuffererDone(|s.bufs[s.pending]|), err := FirstError(s.err, RenderFailed))
    case BufSeeClosed => s.(recvNil := true)
    case BufSend =>
      s.(writer := Writing(s.pending, |s.bufs[s.pending]|, 0),
         bufs := s.bufs[s.writing := []],
         pending := s.writing,
         writing := s.pending)
    case BufReturn => s.(bufferer := BuffererDone(|s.bufs[s.pending]|))
    case BufCancel => s.(bufferer := BuffererDone(|s.bufs[s.pending]|))
    case WriteSome(n) =>
      var off := s.writer.off;
      s.(out := s.out + s.bufs[s.writer.buf][off..off + n], writer := s.writer.(off := off + n))
    case WriteFinish => s.(writer := Receiving)
    case WriteFail => s.(writer := WriterDone, err := FirstError(s.err, WriteFailed))
    case WriteSeeClosed => s.(writer := WriterDone)
  }

  ghost predicate Next(job: Job, s: State, s': State)
  {
    WellFormed(s) && exists step :: Enabled(s, step) && s' == Apply(job, s, step)
  }

  ghost predicate IsRun(job: Job, trace: seq<State>)
  {
    && trace != []
    && trace[0] == Init(job)
    && forall i :: 0 < i < |trace| ==> Next(job, trace[i - 1], trace[i])
  }

  predicate Done(s: State)
  {
    s.reader.ReaderDone? && s.bufferer.BuffererDone? && s.writer.WriterDone?
  }

  // ---------- The invariant ----------

  /** How many entries the buffering goroutine has taken off the channel. */
  ghost function Taken(job: Job, s: State): int
  {
    |job.input| - |s.src| - |s.entryChan|
  }

  ghost function Unwritten(s: State): Bytes
    requires WellFormed(s) && (s.writer.Writing? ==> WriterInBounds(s))
  {
    if s.writer.Writing? then s.bufs[s.writer.buf][s.writer.off..s.writer.len] else []
  }

  ghost function GoodPending(s: State): Bytes
    requires WellFormed(s) && (s.bufferer.BuffererDone? ==> s.bufferer.good <= |s.bufs[s.pending]|)
  {
    if s.bufferer.BuffererDone? then s.bufs[s.pending][..s.bufferer.good] else s.bufs[s.pending]
  }

  /** Output, then what the writer holds, then what is pending. */
  ghost function Produced(s: State): Bytes
    requires WellFormed(s) && BuffersApart(s)
  {
    s.out + Unwritten(s) + GoodPending(s)
  }

  /** Entries are in the stream, in the channel, or taken; none is lost and the order is kept. */
  ghost predicate EntriesInPlace(job: Job, s: State)
  {
    && 0 <= Taken(job, s)
    && s.src == job.input[|job.input| - |s.src|..]
    && s.entryChan == job.input[Taken(job, s)..|job.input| - |s.src|]
    && (s.reader.Sending? ==> s.src != [] && s.reader.ei == s.src[0])
    && |s.entryChan| <= CHAN_SIZE
  }

  /** The writer's buffer is the one the bufferer calls `writing`, and it is handed over whole. */
  ghost predicate BuffersApart(s: State)
    requires WellFormed(s)
  {
    && (s.writer.Writing? ==>
          s.writer.buf == s.writing && s.writer.off <= s.writer.len == |s.bufs[s.writing]|)
    && (s.bufferer.BuffererDone? ==> s.bufferer.good <= |s.bufs[s.pending]|)
  }

  /** Goroutines return early only once an error has been recorded. */
  ghost predicate EndsAreEarned(job: Job, s: State)
    requires WellFormed(s)
  {
    && (s.recvNil ==> s.reader.ReaderDone? && s.entryChan == [])
    && (s.err.Some? && s.err.value.StreamFailed? ==> job.streamFails)
    && (s.err.None? ==>
          && (s.reader.ReaderDone? ==> s.src == [] && !job.streamFails)
          && (s.bufferer.BuffererDone? ==> s.recvNil && s.bufs[s.pending] == [])
          && (s.writer.WriterDone? ==> s.bufferer.BuffererDone?)
          && RenderedSoFar(job, s))
  }

  ghost predicate RenderedSoFar(job: Job, s: State)
  {
    forall i :: 0 <= i < Taken(job, s) && i < |job.input| && Wanted(job.cfg, job.input[i]) ==>
      job.cfg.render(job.input[i]).ok
  }

  /** Everything taken so far is in the output, in the writer's hands, or pending, in that order,
      until the writer gives up. */
  ghost predicate BytesInPlace(job: Job, s: State)
    requires WellFormed(s) && EntriesInPlace(job, s) && BuffersApart(s)
  {
    var expected := EmitAll(job.cfg, job.input[..Taken(job, s)]);
    if s.writer.WriterDone? && s.err.Some? then s.out <= expected else Produced(s) == expected
  }

  ghost predicate Inv(job: Job, s: State)
  {
    && WellFormed(s)
    && EntriesInPlace(job, s)
    && BuffersApart(s)
    && EndsAreEarned(job, s)
    && BytesInPlace(job, s)
  }

  lemma InitInv(job: Job)
    ensures Inv(job, Init(job))
  {
  }

  lemma EmitAllTake(cfg: Config, eis: seq<EntryInfo>, n: nat)
    requires n < |eis|
    ensures EmitAll(cfg, eis[..n + 1]) == EmitAll(cfg, eis[..n]) + Emit(cfg, eis[n])
  {
    assert eis[..n + 1][..n] == eis[..n];
  }

  lemma {:induction false} EmitAllPrefix(cfg: Config, eis: seq<EntryInfo>, n: nat)
    requires n <= |eis|
    ensures EmitAll(cfg, eis[..n]) <= EmitAll(cfg, eis)
    decreases |eis| - n
  {
    if n == |eis| {
      assert eis[..n] == eis;
    } else {
      EmitAllTake(cfg, eis, n);
      EmitAllPrefix(cfg, eis, n + 1);
    }
  }

  lemma ReceiveKeepsEntries(job: Job, s: State)
    requires Inv(job, s) && Enabled(s, BufReceive)
    ensures var s' := Apply(job, s, BufReceive);
            && WellFormed(s') && EntriesInPlace(job, s')
            && Taken(job, s') == Taken(job, s) + 1 && s.entryChan[0] == job.input[Taken(job, s)]
  {
    assert s.entryChan[0] == job.input[Taken(job, s)];
  }

  /** One more entry taken, which was rendered if it was wanted. */
  lemma RenderedOneMore(job: Job, s: State, s': State)
    requires 0 <= Taken(job, s) < |job.input| && Taken(job, s') == Taken(job, s) + 1 && RenderedSoFar(job, s)
    requires var ei := job.input[Taken(job, s)]; Wanted(job.cfg, ei) ==> job.cfg.render(ei).ok
    ensures RenderedSoFar(job, s')
  {
  }

  lemma ReceiveKeepsEnds(job: Job, s: State)
    requires Inv(job, s) && Enabled(s, BufReceive)
    ensures var s' := Apply(job, s, BufReceive); WellFormed(s') && BuffersApart(s') && EndsAreEarned(job, s')
  {
    ReceiveKeepsEntries(job, s);
    var s' := Apply(job, s, BufReceive);
    if s'.err.None? {
      RenderedOneMore(job, s, s');
    }
  }

  lemma Appended(a: Bytes, b: Bytes, c: Bytes, d: Bytes)
    ensures a + b + (c + d) == (a + b + c) + d
  {
  }

  lemma ReceiveAppends(job: Job, s: State)
    requires WellFormed(s) && BuffersApart(s) && Enabled(s, BufReceive)
    ensures var s' := Apply(job, s, BufReceive);
            WellFormed(s') && BuffersApart(s') && Produced(s') == Produced(s) + Emit(job.cfg, s.entryChan[0])
  {
    var s', before, emitted := Apply(job, s, BufReceive), s.bufs[s.pending], Emit(job.cfg, s.entryChan[0]);
    assert GoodPending(s') == before + emitted;
    assert Unwritten(s') == Unwritten(s);
    Appended(s.out, Unwritten(s), before, emitted);
  }

  /** Receiving an entry appends exactly what that entry emits. */
  lemma ReceiveKeepsBytes(job: Job, s: State)
    requires Inv(job, s) && Enabled(s, BufReceive)
    ensures var s' := Apply(job, s, BufReceive);
            WellFormed(s') && EntriesInPlace(job, s') && BuffersApart(s') && BytesInPlace(job, s')
  {
    ReceiveKeepsEntries(job, s);
    ReceiveAppends(job, s);
    EmitAllTake(job.cfg, job.input, Taken(job, s));
  }

  lemma ReceiveKeepsInv(job: Job, s: State)
    requires Inv(job, s) && Enabled(s, BufReceive)
    ensures Inv(job, Apply(job, s, BufReceive))
  {
    ReceiveKeepsEnds(job, s);
    ReceiveKeepsBytes(job, s);
  }

  /** Handing the pending buffer over moves its bytes to the writer and empties the other buffer. */
  lemma SendKeepsInv(job: Job, s: State)
    requires Inv(job, s) && Enabled(s, BufSend)
    ensures Inv(job, Apply(job, s, BufSend))
  {
    var s' := Apply(job, s, BufSend);
    assert Unwritten(s') == s.bufs[s.pending];
    assert GoodPending(s') == [];
    assert Unwritten(s) == [];
    assert s'.out + Unwritten(s') + GoodPending(s') == s.out + Unwritten(s) + GoodPending(s);
  }

  lemma ReadSendKeepsEntries(job: Job, s: State)
    requires EntriesInPlace(job, s) && WellFormed(s) && Enabled(s, ReadSend)
    ensures EntriesInPlace(job, Apply(job, s, ReadSend)) && Taken(job, Apply(job, s, ReadSend)) == Taken(job, s)
  {
    var s', m := Apply(job, s, ReadSend), |job.input| - |s.src|;
    assert s.src[0] == job.input[m] && s.src[1..] == job.input[m + 1..];
    assert s'.entryChan == job.input[Taken(job, s)..m] + [job.input[m]];
  }

  lemma ReadKeepsEntries(job: Job, s: State, step: Step)
    requires EntriesInPlace(job, s) && WellFormed(s) && Enabled(s, step)
    requires step.ReadPeek? || step.ReadSend? || step.ReadCancel?
    ensures EntriesInPlace(job, Apply(job, s, step)) && Taken(job, Apply(job, s, step)) == Taken(job, s)
  {
    if step.ReadSend? {
      ReadSendKeepsEntries(job, s);
    }
  }

  lemma ReadKeepsEnds(job: Job, s: State, step: Step)
    requires Inv(job, s) && Enabled(s, step)
    requires step.ReadPeek? || step.ReadSend? || step.ReadCancel?
    ensures var s' := Apply(job, s, step);
            && WellFormed(s') && EntriesInPlace(job, s') && BuffersApart(s')
            && EndsAreEarned(job, s') && Taken(job, s') == Taken(job, s)
  {
    ReadKeepsEntries(job, s, step);
  }

  lemma ReadKeepsInv(job: Job, s: State, step: Step)
    requires Inv(job, s) && Enabled(s, step)
    requires step.ReadPeek? || step.ReadSend? || step.ReadCancel?
    ensures Inv(job, Apply(job, s, step))
  {
    ReadKeepsEnds(job, s, step);
  }

  lemma CopyMovesBytes(out: Bytes, buf: Bytes, off: nat, mid: nat, len: nat, pending: Bytes)
    requires off <= mid <= len <= |buf|
    ensures (out + buf[off..mid]) + buf[mid..len] + pending == out + buf[off..len] + pending
  {
    assert buf[off..len] == buf[off..mid] + buf[mid..len];
  }

  lemma WriteSomeKeepsEnds(job: Job, s: State, n: nat)
    requires Inv(job, s) && Enabled(s, WriteSome(n))
    ensures var s' := Apply(job, s, WriteSome(n));
            && WellFormed(s') && EntriesInPlace(job, s') && BuffersApart(s')
            && EndsAreEarned(job, s') && Taken(job, s') == Taken(job, s)
  {
  }

  lemma WriteSomeMoves(job: Job, s: State, n: nat)
    requires WellFormed(s) && BuffersApart(s) && Enabled(s, WriteSome(n))
    ensures var s' := Apply(job, s, WriteSome(n)); WellFormed(s') && BuffersApart(s') && Produced(s') == Produced(s)
  {
    var s' := Apply(job, s, WriteSome(n));
    var off, len, buf, good := s.writer.off, s.writer.len, s.bufs[s.writing], GoodPending(s);
    var front, middle, back := buf[off..off + n], buf[off + n..len], buf[off..len];
    assert Produced(s') == (s.out + front) + middle + good;
    assert Produced(s) == s.out + back + good;
    CopyMovesBytes(s.out, buf, off, off + n, len, good);
  }

  lemma WriteSomeKeepsInv(job: Job, s: State, n: nat)
    requires Inv(job, s) && Enabled(s, WriteSome(n))
    ensures Inv(job, Apply(job, s, WriteSome(n)))
  {
    WriteSomeKeepsEnds(job, s, n);
    WriteSomeMoves(job, s, n);
  }

  lemma WriteEndMoves(job: Job, s: State, step: Step)
    requires WellFormed(s) && BuffersApart(s) && Enabled(s, step)
    requires step.WriteFinish? || step.WriteFail? || step.WriteSeeClosed?
    ensures var s' := Apply(job, s, step);
            WellFormed(s') && BuffersApart(s') && s'.out <= Produced(s) && (!step.WriteFail? ==> Produced(s') == Produced(s))
  {
    var s' := Apply(job, s, step);
    assert GoodPending(s') == GoodPending(s);
    if step.WriteFinish? {
      assert Unwritten(s) == [];
    }
    assert s.out + Unwritten(s) + GoodPending(s) == s.out + (Unwritten(s) + GoodPending(s));
  }

  lemma WriteEndKeepsEnds(job: Job, s: State, step: Step)
    requires Inv(job, s) && Enabled(s, step)
    requires step.WriteFinish? || step.WriteFail? || step.WriteSeeClosed?
    ensures var s' := Apply(job, s, step);
            WellFormed(s') && EntriesInPlace(job, s') && EndsAreEarned(job, s') && Taken(job, s') == Taken(job, s)
  {
  }

  lemma WriteEndKeepsInv(job: Job, s: State, step: Step)
    requires Inv(job, s) && Enabled(s, step)
    requires step.WriteFinish? || step.WriteFail? || step.WriteSeeClosed?
    ensures Inv(job, Apply(job, s, step))
  {
    WriteEndKeepsEnds(job, s, step);
    WriteEndMoves(job, s, step);
  }

  lemma BufferEndKeepsInv(job: Job, s: State, step: Step)
    requires Inv(job, s) && Enabled(s, step)
    requires step.BufSeeClosed? || step.BufReturn? || step.BufCancel?
    ensures Inv(job, Apply(job, s, step))
  {
    assert GoodPending(Apply(job, s, step)) == GoodPending(s);
  }

  lemma StepKeepsInv(job: Job, s: State, step: Step)
    requires Inv(job, s) && Enabled(s, step)
    ensures Inv(job, Apply(job, s, step))
  {
    match step
    case BufReceive => ReceiveKeepsInv(job, s);
    case BufSend => SendKeepsInv(job, s);
    case BufSeeClosed => BufferEndKeepsInv(job, s, step);
    case BufReturn => BufferEndKeepsInv(job, s, step);
    case BufCancel => BufferEndKeepsInv(job, s, step);
    case ReadPeek => ReadKeepsInv(job, s, step);
    case ReadSend => ReadKeepsInv(job, s, step);
    case ReadCancel => ReadKeepsInv(job, s, step);
    case WriteSome(n) => WriteSomeKeepsInv(job, s, n);
    case _ => WriteEndKeepsInv(job, s, step);
  }

  lemma {:induction false} RunInv(job: Job, trace: seq<State>)
    requires IsRun(job, trace)
    ensures Inv(job, trace[|trace| - 1])
  {
    if |trace| == 1 {
      InitInv(job);
    } else {
      var prefix := trace[..|trace| - 1];
      RunInv(job, prefix);
      var s, s' := prefix[|prefix| - 1], trace[|trace| - 1];
      assert Next(job, s, s');
      var step :| Enabled(s, step) && s' == Apply(job, s, step);
      StepKeepsInv(job, s, step);
    }
  }

  // ---------- What every run keeps ----------

  /** In every reachable state the written bytes, the rest of the writer's buffer and the pending
      buffer are the rendered entries taken so far; a failed write only cuts the output short. */
  lemma BytesAreInOrder(job: Job, trace: seq<State>)
    requires IsRun(job, trace)
    ensures var s := trace[|trace| - 1];
            && Inv(job, s)
            && s.out <= EmitAll(job.cfg, job.input)
            && (s.err.None? || !s.writer.WriterDone? ==>
                  Produced(s) == EmitAll(job.cfg, job.input[..Taken(job, s)]))
  {
    RunInv(job, trace);
    var s := trace[|trace| - 1];
    EmitAllPrefix(job.cfg, job.input, Taken(job, s));
  }

  lemma StepLeavesWriterBuffer(job: Job, s: State, step: Step)
    requires WellFormed(s) && BuffersApart(s) && Enabled(s, step) && s.writer.Writing?
    ensures var s' := Apply(job, s, step); |s'.bufs| == 2 && s'.bufs[s.writer.buf] == s.bufs[s.writer.buf]
  {
  }

  /** While the writer holds a buffer, no step of any goroutine changes that buffer. */
  lemma WriterBufferUntouched(job: Job, trace: seq<State>, s': State)
    requires IsRun(job, trace) && Next(job, trace[|trace| - 1], s')
    requires trace[|trace| - 1].writer.Writing?
    ensures var w := trace[|trace| - 1].writer.buf;
            w < |trace[|trace| - 1].bufs| == |s'.bufs| && s'.bufs[w] == trace[|trace| - 1].bufs[w]
  {
    var s := trace[|trace| - 1];
    RunInv(job, trace);
    var step :| Enabled(s, step) && s' == Apply(job, s, step);
    StepLeavesWriterBuffer(job, s, step);
  }

  lemma DoneHasWritten(job: Job, s: State)
    requires Inv(job, s) && Done(s)
    ensures s.out <= EmitAll(job.cfg, job.input)
    ensures s.err.None? ==> s.out == EmitAll(job.cfg, job.input) && !job.streamFails
  {
    EmitAllPrefix(job.cfg, job.input, Taken(job, s));
    assert job.input[..|job.input|] == job.input;
  }

  /** A run that ends without an error has written everything, and nothing went wrong on the way. */
  lemma ErrorFreeRunWritesEverything(job: Job, trace: seq<State>)
    requires IsRun(job, trace)
    requires Done(trace[|trace| - 1]) && trace[|trace| - 1].err.None?
    ensures trace[|trace| - 1].out == EmitAll(job.cfg, job.input)
    ensures !job.streamFails
    ensures forall ei :: ei in job.input && Wanted(job.cfg, ei) ==> job.cfg.render(ei).ok
  {
    RunInv(job, trace);
    DoneHasWritten(job, trace[|trace| - 1]);
  }

  // ---------- Where an error comes from ----------

  /** An entry that is asked for, among the first `n`, does not render. */
  ghost predicate FailsToRender(job: Job, n: int)
  {
    exists i :: 0 <= i < n && i < |job.input| && Wanted(job.cfg, job.input[i]) && !job.cfg.render(job.input[i]).ok
  }

  /** Some step of the run ends the writer in the middle of a write. */
  ghost predicate WriteGivenUp(trace: seq<State>)
  {
    exists i :: 0 < i < |trace| && trace[i - 1].writer.Writing? && trace[i].writer.WriterDone?
  }

  /** What each kind of error means. */
  ghost predicate Earned(job: Job, s: State, givenUp: bool)
  {
    match s.err
    case None => true
    case Some(StreamFailed) => job.streamFails && s.src == []
    case Some(RenderFailed) => FailsToRender(job, Taken(job, s))
    case Some(WriteFailed) => givenUp
  }

  lemma EarnedByReceiving(job: Job, s: State, givenUp: bool)
    requires Inv(job, s) && Enabled(s, BufReceive) && Earned(job, s, givenUp)
    ensures Earned(job, Apply(job, s, BufReceive), givenUp)
  {
    ReceiveKeepsEntries(job, s);
    var n := Taken(job, s);
    assert !Buffered(job.cfg, s.bufs[s.pending], job.input[n]).ok ==>
        Wanted(job.cfg, job.input[n]) && !job.cfg.render(job.input[n]).ok;
  }

  lemma EarnedByStep(job: Job, s: State, step: Step, givenUp: bool)
    requires Inv(job, s) && Enabled(s, step) && Earned(job, s, givenUp)
    ensures var s' := Apply(job, s, step); Earned(job, s', givenUp || (s.writer.Writing? && s'.writer.WriterDone?))
  {
    if step.BufReceive? {
      EarnedByReceiving(job, s, givenUp);
    }
  }

  /** In every run, an error of the stream means that the stream failed, an error in rendering that an entry
      asked for and taken does not render, and an error in writing that the output refused a write. */
  lemma {:induction false} ErrorsAreEarned(job: Job, trace: seq<State>)
    requires IsRun(job, trace)
    ensures var s := trace[|trace| - 1];
            && (s.err == Some(StreamFailed) ==> job.streamFails && s.src == [])
            && (s.err == Some(RenderFailed) ==>
                  exists ei :: ei in job.input && Wanted(job.cfg, ei) && !job.cfg.render(ei).ok)
            && (s.err == Some(WriteFailed) ==> WriteGivenUp(trace))
  {
    EarnedInRun(job, trace);
    if trace[|trace| - 1].err == Some(RenderFailed) {
      var n := Taken(job, trace[|trace| - 1]);
      var i :| 0 <= i < n && i < |job.input| && Wanted(job.cfg, job.input[i]) && !job.cfg.render(job.input[i]).ok;
      assert job.input[i] in job.input;
    }
  }

  lemma {:induction false} EarnedInRun(job: Job, trace: seq<State>)
    requires IsRun(job, trace)
    ensures Earned(job, trace[|trace| - 1], WriteGivenUp(trace))
  {
    if |trace| > 1 {
      var n := |trace| - 1;
      var prefix := trace[..n];
      EarnedInRun(job, prefix);
      RunInv(job, prefix);
      assert Next(job, trace[n - 1], trace[n]);
      var step :| Enabled(trace[n - 1], step) && trace[n] == Apply(job, trace[n - 1], step);
      EarnedByStep(job, trace[n - 1], step, WriteGivenUp(prefix));
      if WriteGivenUp(prefix) {
        var i :| 0 < i < |prefix| && prefix[i - 1].writer.Writing? && prefix[i].writer.WriterDone?;
        assert trace[i - 1].writer.Writing? && trace[i].writer.WriterDone?;
      }
    }
  }

  // ---------- No deadlock, and every schedule finishes ----------

  lemma NoDeadlock(job: Job, s: State)
    requires Inv(job, s) && !Done(s)
    ensures exists step :: Enabled(s, step)
  {
    if s.writer.Writing? {
      if s.writer.off == s.writer.len {
        assert Enabled(s, WriteFinish);
      } else {
        assert Enabled(s, WriteSome(1));
      }
    } else if s.reader.Peeking? {
      assert Enabled(s, ReadPeek);
    } else if s.bufferer.BuffererDone? {
      if s.writer.Receiving? {
        assert Enabled(s, WriteSeeClosed);
      } else {
        assert Enabled(s, ReadCancel);
      }
    } else if s.writer.WriterDone? {
      assert Enabled(s, BufCancel);
    } else if s.bufs[s.pending] != [] {
      assert Enabled(s, BufSend);
    } else if s.recvNil {
      assert Enabled(s, BufReturn);
    } else if s.entryChan != [] {
      assert Enabled(s, BufReceive);
    } else if s.reader.ReaderDone? {
      assert Enabled(s, BufSeeClosed);
    } else {
      assert Enabled(s, ReadSend);
    }
  }

  ghost function ReaderWork(s: State): nat
  {
    match s.reader
    case Peeking => 2 * |s.src| + 2
    case Sending(_) => 2 * |s.src| + 1
    case ReaderDone => 0
  }

  ghost function BuffererWork(s: State): nat
    requires WellFormed(s)
  {
    if s.bufferer.BuffererDone? then 0 else if s.bufs[s.pending] == [] then 1 else 2
  }

  ghost function WriterWork(s: State): nat
    requires BoundedWriter(s)
  {
    match s.writer
    case Receiving => 1
    case Writing(_, len, off) => 2 + len - off
    case WriterDone => 0
  }

  ghost predicate BoundedWriter(s: State)
  {
    s.writer.Writing? ==> s.writer.off <= s.writer.len
  }

  ghost predicate LessWork(s': State, s: State)
    requires WellFormed(s) && WellFormed(s') && BoundedWriter(s) && BoundedWriter(s')
  {
    || ReaderWork(s') < ReaderWork(s)
    || (ReaderWork(s') == ReaderWork(s) &&
        (|| |s'.entryChan| < |s.entryChan|
         || (|s'.entryChan| == |s.entryChan| &&
             (|| (s'.recvNil && !s.recvNil)
              || (s'.recvNil == s.recvNil &&
                  (|| BuffererWork(s') < BuffererWork(s)
                   || (BuffererWork(s') == BuffererWork(s) && WriterWork(s') < WriterWork(s))))))))
  }

  lemma StepIsProgress(job: Job, s: State, step: Step)
    requires Inv(job, s) && Enabled(s, step)
    ensures var s' := Apply(job, s, step);
            && WellFormed(s') && BoundedWriter(s') && LessWork(s', s)
            && s.out <= s'.out && (s.err.Some? ==> s'.err == s.err)
  {
  }

  /** Run the pipeline under a scheduler that picks any enabled step. The function is total because
      every step lowers the work left, so no schedule runs forever. */
  ghost function Complete(job: Job, s: State, scheduler: State -> Step): (end: State)
    requires Inv(job, s)
    requires forall t :: Inv(job, t) && !Done(t) ==> Enabled(t, scheduler(t))
    ensures Inv(job, end) && Done(end)
    ensures s.out <= end.out
    ensures s.err.Some? ==> end.err == s.err
    decreases ReaderWork(s), |s.entryChan|, !s.recvNil, BuffererWork(s), WriterWork(s)
  {
    if Done(s) then s
    else
      StepKeepsInv(job, s, scheduler(s));
      StepIsProgress(job, s, scheduler(s));
      Complete(job, Apply(job, s, scheduler(s)), scheduler)
  }

  /** Whatever the scheduler does, the pipeline finishes; without an error everything was written, and
      with one a prefix of it was. */
  lemma EveryScheduleFinishes(job: Job, scheduler: State -> Step)
    requires forall t :: Inv(job, t) && !Done(t) ==> Enabled(t, scheduler(t))
    ensures Inv(job, Init(job))
    ensures var end := Complete(job, Init(job), scheduler);
            && Done(end)
            && end.out <= EmitAll(job.cfg, job.input)
            && (end.err.None? ==> end.out == EmitAll(job.cfg, job.input) && !job.streamFails)
  {
    InitInv(job);
    DoneHasWritten(job, Complete(job, Init(job), scheduler));
  }

  /** Nothing goes wrong: the stream does not fail and every entry that is asked for renders. */
  ghost predicate Sound(job: Job)
  {
    !job.streamFails && forall ei :: ei in job.input && Wanted(job.cfg, ei) ==> job.cfg.render(ei).ok
  }

  lemma SoundStepMakesNoError(job: Job, s: State, step: Step)
    requires Inv(job, s) && Sound(job) && s.err.None? && Enabled(s, step) && !step.WriteFail?
    ensures Apply(job, s, step).err.None?
  {
    if step.BufReceive? {
      ReceiveKeepsEntries(job, s);
      assert s.entryChan[0] in job.input;
    }
  }

  lemma {:induction false} CompleteWithoutError(job: Job, s: State, scheduler: State -> Step)
    requires Inv(job, s) && Sound(job) && s.err.None?
    requires forall t :: Inv(job, t) && !Done(t) ==> Enabled(t, scheduler(t)) && !scheduler(t).WriteFail?
    ensures Complete(job, s, scheduler).err.None?
    decreases ReaderWork(s), |s.entryChan|, !s.recvNil, BuffererWork(s), WriterWork(s)
  {
    if !Done(s) {
      StepKeepsInv(job, s, scheduler(s));
      StepIsProgress(job, s, scheduler(s));
      SoundStepMakesNoError(job, s, scheduler(s));
      CompleteWithoutError(job, Apply(job, s, scheduler(s)), scheduler);
    }
  }

  /** If nothing goes wrong and no write fails, every schedule ends without an error and has written everything. */
  lemma SoundJobSucceeds(job: Job, scheduler: State -> Step)
    requires Sound(job)
    requires forall t :: Inv(job, t) && !Done(t) ==> Enabled(t, scheduler(t)) && !scheduler(t).WriteFail?
    ensures Inv(job, Init(job))
    ensures var end := Complete(job, Init(job), scheduler); end.err.None? && end.out == EmitAll(job.cfg, job.input)
  {
    EveryScheduleFinishes(job, scheduler);
    CompleteWithoutError(job, Init(job), scheduler);
  }
}
