/**
 Merging log files, from the decoded files to the entries handed to the output pipeline: every file
 becomes a stream, streams without an entry in the time range are left out, and the rest are merged. When a
 file fails, the producers of the other streams are cancelled, so the merge may see only a part of a file; how
 much, is a parameter.
 */
module LogMerging {
  import opened Common
  import opened LogEntries
  import Files = FileLogStreams
  import opened MergeSpec
  import opened MergedStreams
  import opened MergeReading
  import Pipeline = LogPipeline

  /** What each opening of a file finds, and how each attempt to open it goes. */
  datatype Source = Source(files: nat -> Files.LogFile, openErr: nat -> Option<Files.Error>)

  function Streamed(w: Files.Window, src: Source): Files.Delivered
  {
    Files.Streamed(w, src.files, src.openErr)
  }

  function Contents(w: Files.Window, sources: seq<Source>): (c: seq<seq<Entry>>)
    ensures |c| == |sources|
  {
    seq(|sources|, f requires 0 <= f < |sources| => Streamed(w, sources[f]).entries)
  }

  /** Which files end with an error other than the end of the file. */
  function Failing(w: Files.Window, sources: seq<Source>): (fails: seq<bool>)
    ensures |fails| == |sources|
  {
    seq(|sources|, f requires 0 <= f < |sources| => Streamed(w, sources[f]).end != Files.EOF)
  }

  /** The stream delivers the first `k` entries of the source and ends as the source does, or as if finished if
      that is not all of them. It has not already failed. */
  ghost predicate StandsFor(w: Files.Window, src: Source, k: nat, s: LogStream)
    reads s
  {
    var d := Streamed(w, src);
    && k <= |d.entries| && s.rest == d.entries[..k] && NonDecreasing(s.rest)
    && s.fails == (d.end != Files.EOF && k == |d.entries|)
    && (s.rest != [] || !s.fails)
  }

  ghost predicate Ascending(l: seq<LogStream>)
  {
    forall i, j :: 0 <= i < j < |l| ==> l[i].file < l[j].file
  }

  /** Stream number `f` of `all` stands for source number `f`; the live ones are those with an entry. */
  ghost predicate Opened(w: Files.Window, sources: seq<Source>, keep: seq<nat>, all: seq<LogStream>, live: seq<LogStream>)
    reads all
  {
    && |all| <= |sources| == |keep|
    && (forall f :: 0 <= f < |all| ==> all[f].file == f && StandsFor(w, sources[f], keep[f], all[f]))
    && (forall i :: 0 <= i < |live| ==> live[i].file < |all| && all[live[i].file] == live[i] && live[i].rest != [])
    && Ascending(live)
    && (forall f :: 0 <= f < |all| && all[f].rest != [] ==> all[f] in live)
  }

  lemma OpenedSnoc(w: Files.Window, sources: seq<Source>, keep: seq<nat>, all: seq<LogStream>, live: seq<LogStream>,
                   s: LogStream)
    requires Opened(w, sources, keep, all, live) && |all| < |sources|
    requires s.file == |all| && StandsFor(w, sources[|all|], keep[|all|], s)
    ensures Opened(w, sources, keep, all + [s], if s.rest != [] then live + [s] else live)
  {
  }

  /** The error of a source that fails before it delivers anything. */
  predicate FailsAtOnce(w: Files.Window, src: Source, err: Files.Error)
  {
    Streamed(w, src).entries == [] && err == Streamed(w, src).end != Files.EOF
  }

  /** The merge's stream `s` is what callers see of the file stream `f`: all of it or, if cut, a beginning. */
  ghost predicate Views(f: Files.FileLogStream, s: LogStream, cut: bool)
    reads f, s
  {
    && f.Valid()
    && if cut then s.rest <= f.Remaining().entries && !s.fails
       else s.rest == f.Remaining().entries && (s.fails <==> f.Remaining().end != Files.EOF)
  }

  /** Peeking at the file stream gives what peeking at the merge's stream gives, and at the end its error. */
  method PeekAlike(f: Files.FileLogStream, s: LogStream, ghost cut: bool) returns (e: Entry, ok: bool)
    requires Views(f, s, cut)
    modifies f
    ensures Views(f, s, cut)
    ensures s.rest != [] ==> ok && e == s.rest[0]
    ensures s.rest == [] && !cut ==> !ok && f.err.Some? && (s.fails <==> f.err != Some(Files.EOF))
  {
    e, ok := f.Peek();
    var e', ok' := s.Peek();
    assert ok' ==> ok && e == e';
  }

  /** Popping both returns the same entry, and the one remains what is seen of the other. */
  method PopAlike(f: Files.FileLogStream, s: LogStream, ghost cut: bool) returns (e: Entry, ok: bool)
    requires Views(f, s, cut)
    modifies f, s
    ensures Views(f, s, cut)
    ensures old(s.rest) != [] ==> ok && e == old(s.rest)[0] && s.rest == old(s.rest)[1..]
    ensures old(s.rest) == [] ==> s.rest == [] && (!cut ==> !ok)
  {
    ghost var before, rest := f.Remaining().entries, s.rest;
    e, ok := f.Pop();
    var e', ok' := s.Pop();
    assert rest != [] && rest <= before ==> rest[0] == before[0] && rest[1..] <= before[1..];
  }

  /** The file stream for one source and what the merge sees of it; there is a stream exactly if it has an
      entry to deliver. */
  method OpenOne(w: Files.Window, src: Source, f: nat, k: nat)
    returns (stream: Files.FileLogStream?, s: LogStream, err: Option<Files.Error>)
    requires k <= |Streamed(w, src).entries| && (Streamed(w, src).entries != [] ==> k > 0)
    ensures fresh(s) && s.file == f && (stream != null <==> s.rest != [])
    ensures stream != null ==> fresh(stream) && Views(stream, s, k < |Streamed(w, src).entries|)
    ensures err == None ==> StandsFor(w, src, k, s)
    ensures err != None ==> FailsAtOnce(w, src, err.value)
  {
    stream, err := Files.NewFileLogStream(src.files, w, src.openErr);
    Files.StreamedInOrder(w, src.files, src.openErr);
    var d := Streamed(w, src);
    assert d.entries[..|d.entries|] == d.entries;
    s := new LogStream(f, d.entries[..k], d.end != Files.EOF && k == |d.entries|);
  }

  /** How much of each source its producer hands over, the first entry at least. */
  ghost predicate Keeps(w: Files.Window, sources: seq<Source>, keep: seq<nat>)
  {
    && |keep| == |sources|
    && forall f :: 0 <= f < |sources| ==>
         keep[f] <= |Streamed(w, sources[f]).entries| && (Streamed(w, sources[f]).entries != [] ==> keep[f] > 0)
  }

  /** One more source. */
  method OpenNext(w: Files.Window, sources: seq<Source>, keep: seq<nat>, all: seq<LogStream>, live0: seq<LogStream>)
    returns (s: LogStream, live: seq<LogStream>, err: Option<Files.Error>)
    requires Keeps(w, sources, keep) && Opened(w, sources, keep, all, live0) && |all| < |sources|
    ensures err == None ==> Opened(w, sources, keep, all + [s], live)
    ensures fresh(s)
    ensures err != None ==> FailsAtOnce(w, sources[|all|], err.value)
  {
    var stream;
    stream, s, err := OpenOne(w, sources[|all|], |all|, keep[|all|]);
    live := live0;
    if err == None {
      OpenedSnoc(w, sources, keep, all, live0, s);
      if stream != null {
        live := live0 + [s];
      }
    }
  }

  method OpenAll(w: Files.Window, sources: seq<Source>, keep: seq<nat>)
    returns (all: seq<LogStream>, live: seq<LogStream>, err: Option<Files.Error>)
    requires Keeps(w, sources, keep)
    ensures err == None ==> Opened(w, sources, keep, all, live) && |all| == |sources|
    ensures err != None ==> exists f :: 0 <= f < |sources| && FailsAtOnce(w, sources[f], err.value)
    ensures fresh(all)
  {
    all, live, err := [], [], None;
    for f := 0 to |sources|
      invariant |all| == f && fresh(all) && err == None
      invariant Opened(w, sources, keep, all, live)
    {
      var s;
      s, live, err := OpenNext(w, sources, keep, all, live);
      if err != None {
        return;
      }
      all := all + [s];
    }
  }

  lemma OpenedAreDistinct(w: Files.Window, sources: seq<Source>, keep: seq<nat>, all: seq<LogStream>, live: seq<LogStream>)
    requires Opened(w, sources, keep, all, live)
    ensures Distinct(multiset(live))
    ensures forall s :: s in multiset(live) ==> s.rest != [] && NonDecreasing(s.rest)
  {
    OnceEach(live);
    forall s: LogStream | s in multiset(live)
      ensures s.rest != [] && NonDecreasing(s.rest)
    {
      var i :| 0 <= i < |live| && live[i] == s;
    }
  }

  lemma DistinctCons(l: seq<LogStream>)
    requires l != [] && Distinct(multiset(l[1..])) && forall s :: s in multiset(l[1..]) ==> l[0].file < s.file
    ensures Distinct(multiset(l))
  {
    assert l == [l[0]] + l[1..];
    assert multiset(l) == multiset{l[0]} + multiset(l[1..]);
  }

  lemma AscendingTail(l: seq<LogStream>)
    requires l != [] && Ascending(l)
    ensures Ascending(l[1..]) && forall s :: s in multiset(l[1..]) ==> l[0].file < s.file
  {
    var rest := l[1..];
    forall s: LogStream | s in multiset(rest)
      ensures l[0].file < s.file
    {
      var i :| 0 <= i < |rest| && rest[i] == s;
      assert l[i + 1] == s;
    }
  }

  lemma {:induction false} OnceEach(l: seq<LogStream>)
    requires Ascending(l)
    ensures Distinct(multiset(l))
  {
    if l != [] {
      AscendingTail(l);
      OnceEach(l[1..]);
      DistinctCons(l);
    }
  }

  /** newMergedStream, once the files are open. */
  method NewMergedStream(w: Files.Window, sources: seq<Source>, ghost keep: seq<nat>, all: seq<LogStream>,
                         live: seq<LogStream>)
    returns (m: MergedStream)
    requires Opened(w, sources, keep, all, live)
    ensures fresh(m) && m.Valid() && Tracked(all, m.l)
  {
    OpenedAreDistinct(w, sources, keep, all, live);
    m := new MergedStream(live);
    TrackedAfterOpen(w, sources, keep, all, live, m.l);
  }

  lemma OpenedContents(w: Files.Window, sources: seq<Source>, keep: seq<nat>, all: seq<LogStream>, live: seq<LogStream>)
    requires Keeps(w, sources, keep) && Opened(w, sources, keep, all, live) && |all| == |sources|
    ensures Rests(all) == Kept(Contents(w, sources), keep)
    ensures forall f :: 0 <= f < |all| ==>
              (all[f].fails <==> Failing(w, sources)[f] && keep[f] == |Contents(w, sources)[f]|)
  {
  }

  /** Some file fails, and its producer was not cut off before that. */
  ghost predicate FailureShows(files: seq<seq<Entry>>, fails: seq<bool>, keep: seq<nat>)
    requires |files| == |fails| == |keep|
  {
    exists f :: 0 <= f < |files| && fails[f] && keep[f] == |files[f]|
  }

  lemma SomeFailureShows(files: seq<seq<Entry>>, fails: seq<bool>, keep: seq<nat>)
    requires CutsAllowed(files, fails, keep)
    ensures FailureShows(files, fails, keep) <==> true in fails
  {
    if true in fails {
      var g := SomeFailureIsWhole(files, fails, keep);
    }
    if FailureShows(files, fails, keep) {
      var f :| 0 <= f < |files| && fails[f] && keep[f] == |files[f]|;
      assert fails[f] in fails;
    }
  }

  lemma OutcomeOf(files: seq<seq<Entry>>, fails: seq<bool>, keep: seq<nat>, out: seq<Delivery>, err: bool)
    requires CutsAllowed(files, fails, keep) && BeginsMerge(Kept(files, keep), out)
    requires (err <==> true in fails) && (!err ==> IsMerge(Kept(files, keep), out))
    ensures Outcome(files, fails, keep, out, err)
  {
    var left :| Merging(Kept(files, keep), left, out);
    KeptPrefix(files, keep, left, out);
    if !err {
      NothingFailsNothingCut(files, fails, keep);
    }
  }

  /** The reading loop, once the files are open. */
  method MergeOpened(w: Files.Window, sources: seq<Source>, ghost keep: seq<nat>, all: seq<LogStream>, live: seq<LogStream>)
    returns (out: seq<Delivery>, err: bool)
    requires Keeps(w, sources, keep) && Opened(w, sources, keep, all, live) && |all| == |sources|
    modifies all
    ensures BeginsMerge(Kept(Contents(w, sources), keep), out)
    ensures err <==> FailureShows(Contents(w, sources), Failing(w, sources), keep)
    ensures !err ==> IsMerge(Kept(Contents(w, sources), keep), out)
  {
    OpenedContents(w, sources, keep, all, live);
    var m := NewMergedStream(w, sources, keep, all, live);
    out, err := ReadAll(m, all);
  }

  lemma CutsKeep(w: Files.Window, sources: seq<Source>, keep: seq<nat>)
    requires CutsAllowed(Contents(w, sources), Failing(w, sources), keep)
    ensures Keeps(w, sources, keep)
  {
    assert forall f :: 0 <= f < |sources| ==> Contents(w, sources)[f] == Streamed(w, sources[f]).entries;
  }

  /** An error while opening is one of the failures, and the empty output begins every merge. */
  lemma NothingOpened(w: Files.Window, sources: seq<Source>, keep: seq<nat>, f: nat, err: Files.Error)
    requires CutsAllowed(Contents(w, sources), Failing(w, sources), keep)
    requires f < |sources| && FailsAtOnce(w, sources[f], err)
    ensures Outcome(Contents(w, sources), Failing(w, sources), keep, [], true)
  {
    assert Failing(w, sources)[f] in Failing(w, sources);
    MergeStarts(Kept(Contents(w, sources), keep));
    OutcomeOf(Contents(w, sources), Failing(w, sources), keep, [], true);
  }

  /** newMergedStream followed by the reading loop. The output is sorted, holds a prefix of every file in its own
      order, and begins a merge of the files as their producers were cut. There is an error exactly if a file
      fails; without one, the output is the whole merge. */
  method MergeLogFiles(w: Files.Window, sources: seq<Source>, keep: seq<nat>) returns (out: seq<Delivery>, err: bool)
    requires CutsAllowed(Contents(w, sources), Failing(w, sources), keep)
    ensures Outcome(Contents(w, sources), Failing(w, sources), keep, out, err)
  {
    CutsKeep(w, sources, keep);
    var all, live, openErr := OpenAll(w, sources, keep);
    if openErr != None {
      ghost var f :| 0 <= f < |sources| && FailsAtOnce(w, sources[f], openErr.value);
      NothingOpened(w, sources, keep, f, openErr.value);
      return [], true;
    }
    out, err := MergeOpened(w, sources, keep, all, live);
    SomeFailureShows(Contents(w, sources), Failing(w, sources), keep);
    OutcomeOf(Contents(w, sources), Failing(w, sources), keep, out, err);
  }

  /** Whether the output begins the merge of the whole files: exactly if no entry that was dropped is earlier than
      the last one delivered. */
  lemma MergedIffNothingEarlierDropped(w: Files.Window, sources: seq<Source>, keep: seq<nat>, out: seq<Delivery>, err: bool)
    requires CutsAllowed(Contents(w, sources), Failing(w, sources), keep)
    requires Outcome(Contents(w, sources), Failing(w, sources), keep, out, err)
    ensures BeginsMerge(Contents(w, sources), out) <==> NothingEarlierDropped(Contents(w, sources), keep, out)
  {
    forall f | 0 <= f < |sources|
      ensures NonDecreasing(Contents(w, sources)[f])
    {
      Files.StreamedInOrder(w, sources[f].files, sources[f].openErr);
    }
    CutMergeIsMergeIff(Contents(w, sources), keep, out);
  }

  /** The entries as the pipeline gets them, each with the prefix of its file. */
  function Infos(out: seq<Delivery>, prefix: nat -> Bytes): seq<Pipeline.EntryInfo>
  {
    seq(|out|, i requires 0 <= i < |out| => Pipeline.EntryInfo(out[i].entry, prefix(out[i].file)))
  }

  /** From files to bytes: whatever the scheduler does, the pipeline writes a prefix of the rendered entries that
      the merge delivers; a run without an error has merged all files and written the whole of it. */
  lemma PipelineWritesTheMerge(w: Files.Window, sources: seq<Source>, keep: seq<nat>, out: seq<Delivery>, err: bool,
                               cfg: Pipeline.Config, prefix: nat -> Bytes, scheduler: Pipeline.State -> Pipeline.Step)
    requires CutsAllowed(Contents(w, sources), Failing(w, sources), keep)
    requires Outcome(Contents(w, sources), Failing(w, sources), keep, out, err)
    requires var job := Pipeline.Job(cfg, Infos(out, prefix), err);
             forall t :: Pipeline.Inv(job, t) && !Pipeline.Done(t) ==> Pipeline.Enabled(t, scheduler(t))
    ensures var job := Pipeline.Job(cfg, Infos(out, prefix), err);
            && Pipeline.Inv(job, Pipeline.Init(job))
            && var end := Pipeline.Complete(job, Pipeline.Init(job), scheduler);
               && Pipeline.Done(end)
               && end.out <= Pipeline.EmitAll(cfg, Infos(out, prefix))
               && (end.err.None? ==>
                     && true !in Failing(w, sources)
                     && IsMerge(Contents(w, sources), out)
                     && end.out == Pipeline.EmitAll(cfg, Infos(out, prefix)))
  {
    Pipeline.EveryScheduleFinishes(Pipeline.Job(cfg, Infos(out, prefix), err), scheduler);
  }

  lemma TrackedAfterOpen(w: Files.Window, sources: seq<Source>, keep: seq<nat>, all: seq<LogStream>, live: seq<LogStream>,
                         l: seq<LogStream>)
    requires Opened(w, sources, keep, all, live) && multiset(l) == multiset(live)
    ensures Tracked(all, l)
  {
    Members(live, l);
    forall s: LogStream | s in l
      ensures s.file < |all| && s == all[s.file]
    {
      assert s in live;
      var i :| 0 <= i < |live| && live[i] == s;
    }
    forall f | 0 <= f < |all|
      ensures all[f] in l || (all[f].rest == [] && !all[f].fails)
    {
      assert all[f].rest != [] ==> all[f] in live;
    }
  }
}
