/**
 The stream of one log file. The constructor peeks at the first entry and closes the file again, so
 that waiting streams hold no file descriptor; the file is reopened at the next read, and the entry
 that was already seen is recognised and skipped. Entry times are ratcheted to never go back.
 */
module FileLogStreams {
  import opened Common
  import opened LogEntries

  datatype Error = EOF | Failure(code: int)

  /** What decoding yields from the seek point on: entries, then an error. */
  datatype LogFile = LogFile(entries: seq<Entry>, end: Error)

  /** The requested time range; None is the zero time. */
  datatype Window = Window(from: Option<int>, to: Option<int>)

  predicate BeforeFrom(w: Window, t: int)
  {
    w.from.Some? && t < w.from.value
  }

  predicate AfterTo(w: Window, t: int)
  {
    w.to.Some? && t > w.to.value
  }

  function Max(a: int, b: int): int
  {
    if a < b then b else a
  }

  /** A finite stream: the entries it delivers and the error it ends with. */
  datatype Delivered = Delivered(entries: seq<Entry>, end: Error)

  /** Decode `es` with the ratchet at `prev`. */
  function Deliver(w: Window, es: seq<Entry>, end: Error, prev: int): Delivered
  {
    if es == [] then Delivered([], end)
    else
      var t := Max(prev, es[0].time);
      if AfterTo(w, t) then Delivered([], EOF)
      else
        var rest := Deliver(w, es[1..], end, t);
        if BeforeFrom(w, t) then rest
        else rest.(entries := [es[0].(time := t)] + rest.entries)
  }

  /** Open the file and decode it, skipping a first entry that equals the one last seen. */
  function OpenAndDeliver(w: Window, file: LogFile, openErr: Option<Error>, prev: int, seen: Entry): Delivered
  {
    match openErr
    case Some(err) => Delivered([], err)
    case None =>
      if file.entries != [] && file.entries[0] == seen then Deliver(w, file.entries[1..], file.end, prev)
      else Deliver(w, file.entries, file.end, prev)
  }

  // ---------- The stream object ----------

  class FileLogStream {
    const files: nat -> LogFile          // what the n-th opening finds; a log may be written meanwhile
    const window: Window
    const openErr: nat -> Option<Error>  // the outcome of the n-th attempt to open the file

    var prevTime: int
    var decoder: Option<nat>             // how many entries the open decoder has decoded
    var opens: nat
    var read: bool
    var e: Entry
    var err: Option<Error>

    ghost predicate Valid()
      reads this
    {
      && (decoder.Some? ==> opens > 0 && decoder.value <= |files(opens - 1).entries|)
      && (read ==> err.None? && prevTime == e.time)
    }

    /** What later calls deliver once the current entry is popped. */
    ghost function Tail(): Delivered
      requires Valid()
      reads this
    {
      match decoder
      case Some(n) => Deliver(window, files(opens - 1).entries[n..], files(opens - 1).end, prevTime)
      case None => OpenAndDeliver(window, files(opens), openErr(opens), prevTime, e)
    }

    /** Everything the stream has yet to deliver. */
    ghost function Remaining(): Delivered
      requires Valid()
      reads this
    {
      if err.Some? then Delivered([], err.value)
      else if read then Tail().(entries := [e] + Tail().entries)
      else Tail()
    }

    constructor (files: nat -> LogFile, window: Window, openErr: nat -> Option<Error>)
      ensures Valid() && this.files == files && this.window == window && this.openErr == openErr
      ensures prevTime == 0 && decoder == None && opens == 0 && !read && e == ZERO_ENTRY && err == None
    {
      this.files, this.window, this.openErr := files, window, openErr;
      prevTime, decoder, opens, read, e, err := 0, None, 0, false, ZERO_ENTRY, None;
    }

    method Close()
      requires Valid()
      modifies this`decoder
      ensures decoder == None
    {
      decoder := None;
    }

    method Open() returns (ok: bool)
      requires Valid() && decoder.None? && !read && err.None?
      modifies this`opens, this`err, this`decoder
      ensures opens == old(opens) + 1 && err == openErr(old(opens)) && ok == err.None?
      ensures decoder == if ok then Some(0) else None
      ensures Valid() && (if ok then Upcoming(true) else Remaining()) == old(Remaining())
    {
      err := openErr(opens);
      opens := opens + 1;
      ok := err.None?;
      if ok {
        decoder := Some(0);
      }
    }

    /** What the open decoder is about to deliver: right after opening, an entry that was seen is skipped. */
    ghost function Upcoming(justOpened: bool): Delivered
      requires Valid() && decoder.Some?
      reads this
    {
      var es, n := files(opens - 1).entries, decoder.value;
      Deliver(window, if justOpened && n < |es| && es[n] == e then es[n + 1..] else es[n..], files(opens - 1).end, prevTime)
    }

    /** Decodes one entry and decides what becomes of it. */
    method Decode(justOpened: bool)
      requires Valid() && decoder.Some? && !read && err.None?
      modifies this
      ensures Valid() && Remaining() == old(Upcoming(justOpened))
      ensures opens == old(opens)
      ensures err.None? ==> decoder == Some(old(decoder.value) + 1) && decoder.value <= |files(opens - 1).entries|
    {
      var file := files(opens - 1);
      if decoder.value == |file.entries| {
        err := Some(file.end);
        Close();
        e := ZERO_ENTRY;
        return;
      }
      var decoded := file.entries[decoder.value];
      decoder := Some(decoder.value + 1);
      if justOpened && decoded == e {
        return;
      }
      e := decoded;
      if e.time < prevTime {
        e := e.(time := prevTime);
      } else {
        prevTime := e.time;
      }
      if AfterTo(window, e.time) {
        Close();
        e := ZERO_ENTRY;
        err := Some(EOF);
      } else {
        read := !BeforeFrom(window, e.time);
      }
    }

    /** Looks at the next entry without consuming it. */
    method Peek() returns (r: Entry, ok: bool)
      requires Valid()
      modifies this
      ensures Valid() && Remaining() == old(Remaining())
      ensures ok == (Remaining().entries != []) && ok == read
      ensures ok ==> r == Remaining().entries[0] && r == e
      ensures !ok ==> err == Some(Remaining().end)
      ensures !old(read) && old(err).None? && old(decoder).None? ==> opens == old(opens) + 1
    {
      while !read && err.None?
        invariant Valid() && Remaining() == old(Remaining())
        invariant opens == old(opens) || (opens == old(opens) + 1 && (decoder.Some? || err.Some?))
        invariant old(decoder).None? && opens == old(opens) ==>
                    decoder.None? && read == old(read) && err == old(err)
        decreases err.None?, decoder.None?, if decoder.Some? then |files(opens - 1).entries| - decoder.value else 0
      {
        var justOpened := false;
        if decoder.None? {
          var isOpen := Open();
          if !isOpen {
            return ZERO_ENTRY, false;
          }
          justOpened := true;
        }
        Decode(justOpened);
      }
      return e, err.None?;
    }

    method Pop() returns (r: Entry, ok: bool)
      requires Valid()
      modifies this
      ensures Valid()
      ensures ok == (old(Remaining()).entries != [])
      ensures ok ==> r == old(Remaining()).entries[0]
                     && Remaining() == old(Remaining()).(entries := old(Remaining()).entries[1..])
      ensures !ok ==> Remaining() == old(Remaining()) && err == Some(Remaining().end)
    {
      r, ok := Peek();
      if !ok {
        return;
      }
      read := false;
    }
  }

  /** What a stream delivers over its life: the first entry comes from the first opening of the file,
      everything after it from the second. */
  function Streamed(w: Window, files: nat -> LogFile, openErr: nat -> Option<Error>): Delivered
  {
    var first := OpenAndDeliver(w, files(0), openErr(0), 0, ZERO_ENTRY);
    if first.entries == [] then first
    else
      var e := first.entries[0];
      var rest := OpenAndDeliver(w, files(1), openErr(1), e.time, e);
      rest.(entries := [e] + rest.entries)
  }

  /** newFileLogStream: peek once, then close the file. No stream is returned when there is nothing to
      deliver, and an error other than the end of the file is passed on. */
  method NewFileLogStream(files: nat -> LogFile, w: Window, openErr: nat -> Option<Error>)
    returns (s: FileLogStream?, err: Option<Error>)
    ensures var all := Streamed(w, files, openErr);
            && (s == null <==> all.entries == [])
            && (s != null ==> fresh(s) && s.Valid() && s.Remaining() == all && err == None)
            && (s == null ==> err == if all.end == EOF then None else Some(all.end))
  {
    s := new FileLogStream(files, w, openErr);
    var _, ok := s.Peek();
    if !ok {
      if s.err != Some(EOF) {
        return null, s.err;
      }
      return null, None;
    }
    s.Close();
    return s, None;
  }

  // ---------- What delivery means ----------

  /** The largest time among the first `n` entries, and at least `prev`. */
  function RunningMax(es: seq<Entry>, n: nat, prev: int): int
    requires n <= |es|
  {
    if n == 0 then prev else Max(RunningMax(es, n - 1, prev), es[n - 1].time)
  }

  lemma {:induction false} RunningMaxShift(es: seq<Entry>, n: nat, prev: int)
    requires 0 < n <= |es|
    ensures RunningMax(es, n, prev) == RunningMax(es[1..], n - 1, Max(prev, es[0].time))
  {
    if n > 1 {
      RunningMaxShift(es, n - 1, prev);
    }
  }

  /** Once the ratchet has reached `from`, every entry is delivered with its time raised to the
      running maximum, up to the first one that lands after `to`. */
  lemma {:induction false} DeliverRatchets(w: Window, es: seq<Entry>, end: Error, prev: int)
    requires es != [] ==> !BeforeFrom(w, Max(prev, es[0].time))
    ensures var d := Deliver(w, es, end, prev);
            && |d.entries| <= |es|
            && (forall i :: 0 <= i < |d.entries| ==>
                  d.entries[i] == es[i].(time := RunningMax(es, i + 1, prev)) && !AfterTo(w, d.entries[i].time))
            && (if |d.entries| == |es| then d.end == end
                else d.end == EOF && AfterTo(w, RunningMax(es, |d.entries| + 1, prev)))
  {
    if es != [] {
      var t := Max(prev, es[0].time);
      var d := Deliver(w, es, end, prev);
      assert RunningMax(es, 1, prev) == Max(RunningMax(es, 0, prev), es[0].time) == t;
      if !AfterTo(w, t) {
        DeliverRatchets(w, es[1..], end, t);
        var rest := Deliver(w, es[1..], end, t);
        forall i | 0 <= i < |es|
          ensures RunningMax(es, i + 1, prev) == RunningMax(es[1..], i, t)
        {
          RunningMaxShift(es, i + 1, prev);
        }
      }
    }
  }

  /** The times of the entries, each raised to the largest before it. */
  function Raised(es: seq<Entry>, prev: int): (times: seq<int>)
    ensures |times| == |es|
  {
    if es == [] then [] else [Max(prev, es[0].time)] + Raised(es[1..], Max(prev, es[0].time))
  }

  lemma {:induction false} RaisedIsRunningMax(es: seq<Entry>, prev: int, i: nat)
    requires i < |es|
    ensures Raised(es, prev)[i] == RunningMax(es, i + 1, prev)
  {
    RunningMaxShift(es, i + 1, prev);
    if i > 0 {
      RaisedIsRunningMax(es[1..], Max(prev, es[0].time), i - 1);
    }
  }

  /** Before `start` all times are before the window, up to `stop` they are in it, and the next is after it. */
  ghost predicate Spans(w: Window, times: seq<int>, start: nat, stop: nat)
  {
    && start <= stop <= |times|
    && (start > 0 ==> w.from.Some?)
    && (forall i :: 0 <= i < start && w.from.Some? ==> times[i] < w.from.value)
    && (forall i :: start <= i < stop ==> w.from.None? || w.from.value <= times[i])
    && (forall i :: 0 <= i < stop ==> w.to.None? || times[i] <= w.to.value)
    && (stop < |times| ==> w.to.Some? && w.to.value < times[stop])
  }

  lemma SpansCons(w: Window, t: int, times: seq<int>, start: nat, stop: nat)
    requires Spans(w, times, start, stop) && (w.to.None? || t <= w.to.value) && (times != [] ==> t <= times[0])
    ensures Spans(w, [t] + times, if w.from.Some? && t < w.from.value then start + 1 else 0, stop + 1)
  {
    var all := [t] + times;
    assert forall i :: 0 < i < |all| ==> all[i] == times[i - 1];
  }

  /** The entries from `start` to `stop` with the given times. */
  function Timed(es: seq<Entry>, times: seq<int>, start: nat, stop: nat): seq<Entry>
    requires start <= stop <= |es| == |times|
  {
    seq(stop - start, k requires 0 <= k < stop - start => es[start + k].(time := times[start + k]))
  }

  lemma TimedCons(e: Entry, es: seq<Entry>, t: int, times: seq<int>, start: nat, stop: nat)
    requires start <= stop <= |es| == |times|
    ensures Timed([e] + es, [t] + times, start + 1, stop + 1) == Timed(es, times, start, stop)
    ensures start == 0 ==> Timed([e] + es, [t] + times, 0, stop + 1) == [e.(time := t)] + Timed(es, times, 0, stop)
  {
    assert start == 0 ==> [e.(time := t)] + Timed(es, times, 0, stop) == Timed([e] + es, [t] + times, 0, stop + 1);
  }

  lemma {:induction false} DeliversSpan(w: Window, es: seq<Entry>, end: Error, prev: int) returns (start: nat, stop: nat)
    ensures Spans(w, Raised(es, prev), start, stop)
    ensures Deliver(w, es, end, prev) ==
            Delivered(Timed(es, Raised(es, prev), start, stop), if stop == |es| then end else EOF)
  {
    start, stop := 0, 0;
    if es != [] {
      var t, rest := Max(prev, es[0].time), es[1..];
      if !AfterTo(w, t) {
        start, stop := DeliversSpan(w, rest, end, t);
        assert es == [es[0]] + rest;
        SpansCons(w, t, Raised(rest, t), start, stop);
        TimedCons(es[0], rest, t, Raised(rest, t), start, stop);
        start, stop := if BeforeFrom(w, t) then start + 1 else 0, stop + 1;
      }
    }
  }

  /** With times raised to the running maximum, the entries before `from` are skipped, delivery stops for good at
      the first entry after `to`, and everything in between is delivered, both ends of the window included. */
  lemma DeliveredExactly(w: Window, es: seq<Entry>, end: Error, prev: int, times: seq<int>) returns (start: nat, stop: nat)
    requires times == Raised(es, prev)
    ensures start <= stop <= |es|
    ensures start > 0 ==> w.from.Some? && forall i :: 0 <= i < start ==> times[i] < w.from.value
    ensures forall i :: start <= i < stop ==> w.from.None? || w.from.value <= times[i]
    ensures forall i :: 0 <= i < stop ==> w.to.None? || times[i] <= w.to.value
    ensures stop < |es| ==> w.to.Some? && w.to.value < times[stop]
    ensures Deliver(w, es, end, prev) == Delivered(Timed(es, times, start, stop), if stop == |es| then end else EOF)
  {
    start, stop := DeliversSpan(w, es, end, prev);
    assert Spans(w, times, start, stop);
  }

  /** Whatever is decoded, delivered times never go back, never precede the ratchet, and lie in the
      window. */
  lemma {:induction false} DeliveredInOrder(w: Window, es: seq<Entry>, end: Error, prev: int)
    ensures var d := Deliver(w, es, end, prev).entries;
            && NonDecreasing(d)
            && forall i :: 0 <= i < |d| ==>
                 && prev <= d[i].time
                 && (w.from.Some? ==> w.from.value <= d[i].time) && (w.to.Some? ==> d[i].time <= w.to.value)
  {
    if es != [] {
      DeliveredInOrder(w, es[1..], end, Max(prev, es[0].time));
    }
  }

  /** Whatever happens to the file between the two openings, the stream is ordered and in the window. */
  lemma StreamedInOrder(w: Window, files: nat -> LogFile, openErr: nat -> Option<Error>)
    ensures var d := Streamed(w, files, openErr).entries;
            && NonDecreasing(d)
            && forall i :: 0 <= i < |d| ==>
                 (w.from.Some? ==> w.from.value <= d[i].time) && (w.to.Some? ==> d[i].time <= w.to.value)
  {
    OpenedInOrder(w, files(0), openErr(0), 0, ZERO_ENTRY);
    var first := OpenAndDeliver(w, files(0), openErr(0), 0, ZERO_ENTRY);
    if first.entries != [] {
      OpenedInOrder(w, files(1), openErr(1), first.entries[0].time, first.entries[0]);
    }
  }

  lemma OpenedInOrder(w: Window, file: LogFile, openErr: Option<Error>, prev: int, seen: Entry)
    ensures var d := OpenAndDeliver(w, file, openErr, prev, seen).entries;
            && NonDecreasing(d)
            && forall i :: 0 <= i < |d| ==>
                 && prev <= d[i].time
                 && (w.from.Some? ==> w.from.value <= d[i].time) && (w.to.Some? ==> d[i].time <= w.to.value)
  {
    DeliveredInOrder(w, file.entries, file.end, prev);
    if file.entries != [] {
      DeliveredInOrder(w, file.entries[1..], file.end, prev);
    }
  }

  // ---------- When reopening loses and repeats nothing ----------

  /** The first decoded entry needs no ratchet and is not filtered out. Seeking to the first entry at or
      after `from` provides this for files whose times are not negative. */
  predicate FirstEntryStands(w: Window, file: LogFile)
  {
    file.entries != [] ==> 0 <= file.entries[0].time && !BeforeFrom(w, file.entries[0].time)
  }

  /** With no filtering left to do, starting over from the first delivered time delivers no less. */
  lemma {:induction false} StartingOverRepeats(w: Window, es: seq<Entry>, end: Error, prev: int)
    requires Deliver(w, es, end, prev).entries != []
    ensures var d := Deliver(w, es, end, prev).entries;
            |Deliver(w, es, end, d[0].time).entries| >= |d|
  {
    var t := Max(prev, es[0].time);
    if BeforeFrom(w, t) {
      StartingOverRepeats(w, es[1..], end, t);
      DeliveredInOrder(w, es, end, prev);
    }
  }

  /** The file was at most appended to. */
  predicate Extends(second: LogFile, first: LogFile)
  {
    first.entries <= second.entries
  }

  /** The first delivered entry depends only on the entries up to it. */
  lemma {:induction false} FirstDelivered(w: Window, es: seq<Entry>, more: seq<Entry>, end: Error, end': Error, prev: int)
    requires Deliver(w, es, end, prev).entries != []
    ensures Deliver(w, es + more, end', prev).entries != []
    ensures Deliver(w, es + more, end', prev).entries[0] == Deliver(w, es, end, prev).entries[0]
  {
    var t := Max(prev, es[0].time);
    assert (es + more)[0] == es[0] && (es + more)[1..] == es[1..] + more;
    if BeforeFrom(w, t) {
      FirstDelivered(w, es[1..], more, end, end', t);
    }
  }

  /** Reopening a file that delivers nothing unseen. */
  lemma ReopenSameFile(w: Window, file: LogFile)
    requires file.entries != [] ==> file.entries[0] != ZERO_ENTRY
    requires Deliver(w, file.entries, file.end, 0).entries != []
    ensures var ideal := Deliver(w, file.entries, file.end, 0);
            var rest := OpenAndDeliver(w, file, None, ideal.entries[0].time, ideal.entries[0]);
            Delivered([ideal.entries[0]] + rest.entries, rest.end) == ideal <==> FirstEntryStands(w, file)
  {
    var ideal := Deliver(w, file.entries, file.end, 0);
    var h, e := file.entries[0], ideal.entries[0];
    if !FirstEntryStands(w, file) {
      DeliveredInOrder(w, file.entries, file.end, 0);
      assert h.time < e.time;
      StartingOverRepeats(w, file.entries, file.end, 0);
    }
  }

  /** With a file that was at most appended to between the two openings: the stream delivers exactly the
      decoded, ratcheted and cut entries of the later file if and only if the first decoded entry is
      delivered unchanged or, when the first opening delivers nothing, neither does the later file. */
  lemma ReopenIsExact(w: Window, files: nat -> LogFile, openErr: nat -> Option<Error>)
    requires openErr(0).None? && openErr(1).None? && Extends(files(1), files(0))
    requires files(1).entries != [] ==> files(1).entries[0] != ZERO_ENTRY
    ensures var first := Deliver(w, files(0).entries, files(0).end, 0);
            var second := Deliver(w, files(1).entries, files(1).end, 0);
            Streamed(w, files, openErr) == second <==>
            if first.entries != [] then FirstEntryStands(w, files(0))
            else second.entries == [] && second.end == first.end
  {
    var first := Deliver(w, files(0).entries, files(0).end, 0);
    assert OpenAndDeliver(w, files(0), openErr(0), 0, ZERO_ENTRY) == first;
    if first.entries != [] {
      var more := files(1).entries[|files(0).entries|..];
      assert files(1).entries == files(0).entries + more;
      FirstDelivered(w, files(0).entries, more, files(0).end, files(1).end, 0);
      ReopenSameFile(w, files(1));
    }
  }

  /** A file whose first entry has a negative time delivers that entry twice. */
  lemma NegativeTimeIsRepeated()
    ensures var file := LogFile([Entry(-1, "", "x")], EOF);
            Streamed(Window(None, None), _ => file, _ => None).entries == [Entry(0, "", "x"), Entry(0, "", "x")]
  {
    var w, file := Window(None, None), LogFile([Entry(-1, "", "x")], EOF);
    assert Deliver(w, file.entries[1..], EOF, 0) == Delivered([], EOF);
    assert Deliver(w, file.entries, EOF, 0) == Delivered([Entry(0, "", "x")], EOF);
  }

  /** A file that is still empty at the first opening is left out, whatever it holds later. */
  lemma LateFileIsLeftOut(w: Window, files: nat -> LogFile, openErr: nat -> Option<Error>)
    requires openErr(0).None? && files(0) == LogFile([], EOF)
    ensures Streamed(w, files, openErr) == Delivered([], EOF)
  {
  }

  /** Under the same condition, entry by entry: the delivered entries are the decoded ones of the later file
      with times raised to the running maximum, up to the first that lands after `to`. */
  lemma StreamedEntries(w: Window, files: nat -> LogFile, openErr: nat -> Option<Error>)
    requires openErr(0).None? && openErr(1).None? && Extends(files(1), files(0))
    requires files(1).entries != [] ==> files(1).entries[0] != ZERO_ENTRY
    requires FirstEntryStands(w, files(1))
    requires var first := Deliver(w, files(0).entries, files(0).end, 0);
             var second := Deliver(w, files(1).entries, files(1).end, 0);
             first.entries == [] ==> second.entries == [] && second.end == first.end
    ensures var d, es := Streamed(w, files, openErr), files(1).entries;
            && |d.entries| <= |es|
            && (forall i :: 0 <= i < |d.entries| ==> d.entries[i] == es[i].(time := RunningMax(es, i + 1, 0)))
            && (if |d.entries| == |es| then d.end == files(1).end
                else d.end == EOF && AfterTo(w, RunningMax(es, |d.entries| + 1, 0)))
  {
    ReopenIsExact(w, files, openErr);
    DeliverRatchets(w, files(1).entries, files(1).end, 0);
  }
}
