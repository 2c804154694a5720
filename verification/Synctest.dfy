/**
 The durability checker: write numbered keys, provoke I/O errors, reopen, and verify that the persisted
 keys are 1, 2, 3, ... up to at least the last acknowledged one. A failed write is ambiguous: reopening
 may or may not find its key.
 */
module Synctest {
  import opened Common

  /** Keys whose writes were acknowledged, and keys whose writes failed and may have gone through. */
  datatype Db = Db(acked: set<nat>, maybe: set<nat>)

  const EMPTY_DB := Db({}, {})

  /** How a write goes wrong. Even keys are put and flushed, odd keys go through a batch. */
  datatype Fault = NoFault | PutFails | SyncFails | Panics

  datatype Written = Written(seq': nat, ret: nat, ok: bool, db: Db)

  function UpTo(m: nat): (keys: set<nat>)
    ensures forall k: nat :: k in keys <==> 0 < k <= m
  {
    if m == 0 then {} else UpTo(m - 1) + {m}
  }

  /** The write closure: the counter afterwards, what it returns, and what became of the key. A panic
      is turned into an error, but the counter keeps its increment and zero is returned. */
  function Write(counter: nat, db: Db, fault: Fault): Written
  {
    var k := counter + 1;
    match fault
    case NoFault => Written(k, k, true, Db(db.acked + {k}, db.maybe - {k}))
    case PutFails =>
      if k % 2 == 0 then Written(k - 1, k - 1, false, db.(maybe := db.maybe + {k}))
      else Written(k - 1, k - 1, false, db)
    case SyncFails => Written(k - 1, k - 1, false, db.(maybe := db.maybe + {k}))
    case Panics => Written(k, 0, false, db.(maybe := db.maybe + {k}))
  }

  /** A failed write leaves its key in doubt, unless the key is odd and never got out of its batch. */
  lemma FailedWriteIsInDoubt(counter: nat, db: Db, fault: Fault)
    requires fault != NoFault && counter + 1 !in db.acked && counter + 1 !in db.maybe
    ensures var w := Write(counter, db, fault);
            && !w.ok && w.db.acked == db.acked && w.db.maybe - {counter + 1} == db.maybe
            && (counter + 1 in w.db.maybe <==> !(fault == PutFails && (counter + 1) % 2 == 1))
  {
    assert db.maybe + {counter + 1} - {counter + 1} == db.maybe;
    assert db.maybe - {counter + 1} == db.maybe;
  }

  /** Within an epoch: the keys up to the counter are acknowledged, and only the next one is in doubt. */
  ghost predicate Clean(counter: nat, db: Db)
  {
    db.acked == UpTo(counter) && db.maybe <= {counter + 1}
  }

  lemma WriteStaysClean(counter: nat, db: Db, fault: Fault)
    requires Clean(counter, db) && fault != Panics
    ensures var w := Write(counter, db, fault);
            && Clean(w.seq', w.db) && w.ret == w.seq'
            && counter <= w.seq' && (w.ok ==> w.seq' == counter + 1) && (!w.ok ==> w.seq' == counter)
            && db.acked <= w.db.acked
  {
    var w := Write(counter, db, fault);
    if fault == NoFault {
      assert UpTo(counter + 1) == UpTo(counter) + {counter + 1};
    } else {
      assert w.seq' == counter;
    }
  }

  /** What reopening may find: every acknowledged key, and any of the doubtful ones. */
  ghost predicate MayPersist(db: Db, keys: set<nat>)
  {
    db.acked <= keys <= db.acked + db.maybe
  }

  /** After any panic-free epoch the persisted keys are 1 to m with m the counter or one more. */
  lemma PersistedIsInterval(counter: nat, db: Db, keys: set<nat>)
    requires Clean(counter, db) && MayPersist(db, keys)
    ensures keys == UpTo(counter) || keys == UpTo(counter + 1)
  {
    assert UpTo(counter + 1) == UpTo(counter) + {counter + 1};
    if counter + 1 in keys {
      assert keys == UpTo(counter + 1);
    } else {
      assert keys == UpTo(counter);
    }
  }

  // ---------- Verifying ----------

  /** The engine iterates over its keys in ascending order. */
  ghost predicate ScanOf(scan: seq<nat>, keys: set<nat>)
  {
    && (forall i, j :: 0 <= i < j < |scan| ==> scan[i] < scan[j])
    && (forall k :: k in scan <==> k in keys)
  }

  function Interval(m: nat): seq<nat>
  {
    seq(m, i => i + 1)
  }

  lemma EmptyOrInhabited(scan: seq<nat>)
    ensures scan == [] || exists k :: k in scan
  {
    if scan != [] {
      assert scan[0] in scan;
    }
  }

  lemma LargestIsLast(scan: seq<nat>, m: nat)
    requires m > 0 && ScanOf(scan, UpTo(m))
    ensures scan != [] && scan[|scan| - 1] == m
  {
    assert m in scan;
    var i :| 0 <= i < |scan| && scan[i] == m;
    assert scan[|scan| - 1] in scan;
  }

  lemma InFront(scan: seq<nat>, n: nat, k: nat)
    requires n < |scan| && forall i, j :: 0 <= i < j < |scan| ==> scan[i] < scan[j]
    ensures k in scan[..n] <==> k in scan && k < scan[n]
  {
    if k in scan[..n] {
      var i :| 0 <= i < n && scan[..n][i] == k;
      assert scan[i] == k;
    }
    if k in scan && k < scan[n] {
      var i :| 0 <= i < |scan| && scan[i] == k;
      assert i < n && scan[..n][i] == k;
    }
  }

  /** Without its largest key, the scan of 1 to m is one of 1 to m - 1. */
  lemma ScanFront(scan: seq<nat>, m: nat)
    requires m > 0 && ScanOf(scan, UpTo(m))
    ensures scan != [] && scan[|scan| - 1] == m && ScanOf(scan[..|scan| - 1], UpTo(m - 1))
  {
    LargestIsLast(scan, m);
    var front := scan[..|scan| - 1];
    forall k: nat
      ensures k in front <==> k in UpTo(m - 1)
    {
      InFront(scan, |scan| - 1, k);
      assert k in scan <==> k in UpTo(m);
    }
  }

  lemma {:induction false} ScanOfInterval(scan: seq<nat>, m: nat)
    requires ScanOf(scan, UpTo(m))
    ensures scan == Interval(m)
  {
    if m == 0 {
      EmptyOrInhabited(scan);
    } else {
      ScanFront(scan, m);
      ScanOfInterval(scan[..|scan| - 1], m - 1);
    }
  }

  lemma IntervalScan(m: nat, keys: set<nat>)
    requires ScanOf(Interval(m), keys)
    ensures keys == UpTo(m)
  {
    forall k
      ensures k in keys <==> k in UpTo(m)
    {
      if k in UpTo(m) {
        assert Interval(m)[k - 1] == k;
      }
    }
  }

  datatype Verdict = Passed(counter: nat) | UnexpectedKey | TooFew

  /** The check passes exactly if the keys are 1 to m with m no smaller than expected. */
  method Verify(scan: seq<nat>, expSeq: nat) returns (v: Verdict)
    ensures v.Passed? <==> scan == Interval(|scan|) && expSeq <= |scan|
    ensures v.Passed? ==> v.counter == |scan|
  {
    var counter := 0;
    while counter < |scan|
      invariant 0 <= counter <= |scan|
      invariant forall i :: 0 <= i < counter ==> scan[i] == i + 1
    {
      counter := counter + 1;
      if scan[counter - 1] != counter {
        assert scan[counter - 1] != Interval(|scan|)[counter - 1];
        return UnexpectedKey;
      }
    }
    if expSeq != 0 && counter < expSeq {
      return TooFew;
    }
    return Passed(counter);
  }

  /** Losing any acknowledged key, or gaining a stray one, makes the next check fail. */
  lemma LossIsDetected(scan: seq<nat>, keys: set<nat>, expSeq: nat, lost: nat)
    requires ScanOf(scan, keys) && 0 < lost <= expSeq && lost !in keys
    ensures !(scan == Interval(|scan|) && expSeq <= |scan|)
  {
    if scan == Interval(|scan|) {
      IntervalScan(|scan|, keys);
    }
  }

  /** A panic between two writes can raise a false alarm: key 1 panics and is lost, the retry writes
      key 2, and the check of the next epoch finds an unexpected key. */
  lemma PanicRaisesFalseAlarm()
    ensures var first := Write(0, EMPTY_DB, Panics);
            var second := Write(first.seq', first.db, NoFault);
            && second.ok && second.ret == 2
            && MayPersist(second.db, {2}) && ScanOf([2], {2})
            && [2] != Interval(1)
  {
    var second := Write(1, Db({}, {1}), NoFault);
    assert second.db == Db({2}, {1});
    assert Interval(1)[0] == 1;
  }

  // ---------- When the next check is bound to pass ----------

  ghost predicate Passes(keys: set<nat>, expSeq: nat)
  {
    exists m: nat :: expSeq <= m && keys == UpTo(m)
  }

  /** The check looks at the scan, but what it decides is whether the persisted keys are in order. */
  lemma CheckIsAboutKeys(scan: seq<nat>, keys: set<nat>, expSeq: nat)
    requires ScanOf(scan, keys)
    ensures scan == Interval(|scan|) && expSeq <= |scan| <==> Passes(keys, expSeq)
  {
    if scan == Interval(|scan|) && expSeq <= |scan| {
      IntervalScan(|scan|, keys);
    }
    if Passes(keys, expSeq) {
      var m: nat :| expSeq <= m && keys == UpTo(m);
      ScanOfInterval(scan, m);
    }
  }

  /** Whichever of the doubtful keys survive, the next check passes. */
  ghost predicate AlwaysPasses(db: Db, expSeq: nat)
  {
    forall keys :: MayPersist(db, keys) ==> Passes(keys, expSeq)
  }

  lemma CleanAlwaysPasses(counter: nat, db: Db)
    requires Clean(counter, db)
    ensures AlwaysPasses(db, counter)
  {
    forall keys | MayPersist(db, keys)
      ensures Passes(keys, counter)
    {
      PersistedIsInterval(counter, db, keys);
    }
  }

  /** A panicking write left this key behind: not acknowledged, and never to be written again. */
  ghost predicate Holed(hole: nat, counter: nat, db: Db)
  {
    0 < hole <= counter && hole !in db.acked
  }

  lemma HoleStays(hole: nat, counter: nat, db: Db, fault: Fault)
    requires Holed(hole, counter, db)
    ensures var w := Write(counter, db, fault);
            Holed(hole, w.seq', w.db) && w.ret == if fault == Panics then 0 else w.seq'
  {
  }

  lemma PanicLeavesAHole(counter: nat, db: Db)
    requires Clean(counter, db)
    ensures var w := Write(counter, db, Panics); Holed(counter + 1, w.seq', w.db) && w.ret == 0
  {
  }

  /** If nothing doubtful survives, a check that expects a number past the hole raises an alarm. */
  lemma HoleRaisesAlarm(hole: nat, counter: nat, db: Db)
    requires Holed(hole, counter, db)
    ensures !AlwaysPasses(db, counter)
  {
    assert MayPersist(db, db.acked);
    assert forall m: nat :: counter <= m ==> hole in UpTo(m);
  }

  /** Within an epoch: all is clean until a write panics, and from then on there is a hole. */
  ghost predicate CleanOrHoled(panicked: bool, counter: nat, db: Db)
  {
    if panicked then exists hole :: Holed(hole, counter, db) else Clean(counter, db)
  }

  lemma WriteKeepsTrack(panicked: bool, counter: nat, db: Db, fault: Fault)
    requires CleanOrHoled(panicked, counter, db)
    ensures var w := Write(counter, db, fault);
            && CleanOrHoled(panicked || fault == Panics, w.seq', w.db)
            && w.ret == (if fault == Panics then 0 else w.seq')
            && counter <= w.seq'
            && (fault != Panics ==> w.seq' == if fault == NoFault then counter + 1 else counter)
  {
    if panicked {
      var hole :| Holed(hole, counter, db);
      HoleStays(hole, counter, db, fault);
    } else if fault == Panics {
      PanicLeavesAHole(counter, db);
    } else {
      WriteStaysClean(counter, db, fault);
    }
  }

  /** The next check is bound to pass exactly if no write panicked. */
  lemma PassesUnlessPanicked(panicked: bool, counter: nat, db: Db)
    requires CleanOrHoled(panicked, counter, db)
    ensures AlwaysPasses(db, counter) <==> !panicked
  {
    if panicked {
      var hole :| Holed(hole, counter, db);
      HoleRaisesAlarm(hole, counter, db);
    } else {
      CleanAlwaysPasses(counter, db);
    }
  }

  // ---------- Epochs ----------

  datatype Stop = Signalled | TimedOut

  /** What happens during one epoch: the outcome of opening, which doubtful keys survived, the faults of
      the writes up to the first failure, the retries after it, and a possible end between writes. */
  datatype Epoch = Epoch(
    openOk: bool,
    scan: seq<nat>,
    successes: nat,
    stop: Option<Stop>,
    failure: Fault,
    retries: seq<Fault>,
    nemesisOk: bool)

  datatype Result = Returned(lastSeq: nat) | OpenFailed | FalseAlarm | Interrupted | NemesisFailed

  /** An epoch writes until a write fails, and then tries up to three more. */
  predicate Runs(e: Epoch)
  {
    e.failure != NoFault && 1 <= |e.retries| <= 3
  }

  /** What the check sees is a possible outcome of the writes before: no acknowledged key was lost. */
  ghost predicate Faithful(db: Db, e: Epoch)
  {
    e.openOk ==> exists keys :: MayPersist(db, keys) && ScanOf(e.scan, keys)
  }

  /** How many of the writes are acknowledged. */
  function Successes(faults: seq<Fault>): nat
  {
    if faults == [] then 0
    else Successes(faults[..|faults| - 1]) + if faults[|faults| - 1] == NoFault then 1 else 0
  }

  /** How many of the writes panic. */
  function Panicked(faults: seq<Fault>): (n: nat)
    ensures Panics !in faults ==> n == 0
  {
    if faults == [] then 0
    else Panicked(faults[..|faults| - 1]) + if faults[|faults| - 1] == Panics then 1 else 0
  }

  /** The check at the start of the epoch passes. */
  predicate Verified(e: Epoch, expSeq: nat)
  {
    e.openOk && e.scan == Interval(|e.scan|) && expSeq <= |e.scan|
  }

  predicate PanicFree(e: Epoch)
  {
    e.failure != Panics && Panics !in e.retries
  }

  /** The number of the last key tried: acknowledged writes and panics use one up. */
  function LastTried(e: Epoch): nat
  {
    |e.scan| + e.successes + Successes(e.retries) + Panicked(e.retries) + if e.failure == Panics then 1 else 0
  }

  class Directory {
    var db: Db

    constructor ()
      ensures db == EMPTY_DB
    {
      db := EMPTY_DB;
    }
  }

  /** After the first failure and the first `k` retries. */
  ghost predicate Retried(e: Epoch, k: nat, counter0: nat, counter: nat, lastSeq: nat, db: Db)
    requires k <= |e.retries|
  {
    && CleanOrHoled(e.failure == Panics || Panics in e.retries[..k], counter, db)
    && counter == counter0 + Successes(e.retries[..k]) + Panicked(e.retries[..k]) + (if e.failure == Panics then 1 else 0)
    && lastSeq == if (if k == 0 then e.failure else e.retries[k - 1]) == Panics then 0 else counter
  }

  lemma SuccessesSnoc(faults: seq<Fault>, k: nat)
    requires k < |faults|
    ensures Successes(faults[..k + 1]) == Successes(faults[..k]) + if faults[k] == NoFault then 1 else 0
    ensures Panicked(faults[..k + 1]) == Panicked(faults[..k]) + if faults[k] == Panics then 1 else 0
    ensures Panics in faults[..k + 1] <==> Panics in faults[..k] || faults[k] == Panics
  {
    assert faults[..k + 1] == faults[..k] + [faults[k]];
    assert faults[..k + 1][..k] == faults[..k];
  }

  /** What one write does to the counter and what it returns. */
  lemma WriteCounts(counter: nat, db: Db, fault: Fault)
    ensures var w := Write(counter, db, fault);
            && w.seq' == counter + (if fault == NoFault || fault == Panics then 1 else 0)
            && w.ret == if fault == Panics then 0 else w.seq'
  {
  }

  lemma FailureRetried(e: Epoch, counter0: nat, db: Db)
    requires Clean(counter0, db) && e.failure != NoFault
    ensures var w := Write(counter0, db, e.failure); Retried(e, 0, counter0, w.seq', w.ret, w.db)
  {
    WriteKeepsTrack(false, counter0, db, e.failure);
    WriteCounts(counter0, db, e.failure);
    assert e.retries[..0] == [];
  }

  lemma OneMoreRetried(e: Epoch, k: nat, counter0: nat, counter: nat, lastSeq: nat, db: Db)
    requires k < |e.retries| && Retried(e, k, counter0, counter, lastSeq, db)
    ensures var w := Write(counter, db, e.retries[k]); Retried(e, k + 1, counter0, w.seq', w.ret, w.db)
  {
    WriteKeepsTrack(e.failure == Panics || Panics in e.retries[..k], counter, db, e.retries[k]);
    WriteCounts(counter, db, e.retries[k]);
    SuccessesSnoc(e.retries, k);
  }

  lemma AllRetried(e: Epoch, counter: nat, lastSeq: nat, db: Db)
    requires e.retries != [] && Retried(e, |e.retries|, |e.scan| + e.successes, counter, lastSeq, db)
    ensures lastSeq == if e.retries[|e.retries| - 1] == Panics then 0 else LastTried(e)
    ensures CleanOrHoled(!PanicFree(e), LastTried(e), db)
  {
    assert e.retries[..|e.retries|] == e.retries;
  }

  /** The writes from the first failure on. Every retry counts, whether the file system has healed or not; what
      is returned is the last number, or zero if the last retry panicked. */
  method FailAndRetry(dir: Directory, e: Epoch) returns (r: Result)
    requires Runs(e) && Clean(|e.scan| + e.successes, dir.db)
    modifies dir
    ensures r == NemesisFailed <==> |e.retries| >= 2 && !e.nemesisOk
    ensures r != NemesisFailed ==> r == Returned(if e.retries[|e.retries| - 1] == Panics then 0 else LastTried(e))
    ensures r != NemesisFailed ==> CleanOrHoled(!PanicFree(e), LastTried(e), dir.db)
  {
    var counter0 := |e.scan| + e.successes;
    FailureRetried(e, counter0, dir.db);
    var w := Write(counter0, dir.db, e.failure);
    var n := |e.retries| - 1;
    while n >= 0
      invariant -1 <= n < |e.retries|
      invariant Retried(e, |e.retries| - 1 - n, counter0, w.seq', w.ret, w.db)
      invariant n < 1 && |e.retries| >= 2 ==> e.nemesisOk
    {
      if n == 1 && !e.nemesisOk {
        dir.db := w.db;
        return NemesisFailed;
      }
      OneMoreRetried(e, |e.retries| - 1 - n, counter0, w.seq', w.ret, w.db);
      w := Write(w.seq', w.db, e.retries[|e.retries| - 1 - n]);
      n := n - 1;
    }
    AllRetried(e, w.seq', w.ret, w.db);
    dir.db := w.db;
    return Returned(w.ret);
  }

  /** How an epoch ends, in every case. */
  ghost predicate EndsWith(e: Epoch, expSeq: nat, r: Result)
    requires Runs(e)
  {
    && (r == OpenFailed <==> !e.openOk && expSeq == 0)
    && (!e.openOk && expSeq > 0 ==> r == Returned(0))
    && (r == FalseAlarm <==> e.openOk && !Verified(e, expSeq))
    && (r == Interrupted <==> Verified(e, expSeq) && e.stop == Some(Signalled))
    && (Verified(e, expSeq) && e.stop == Some(TimedOut) ==> r == Returned(0))
    && (r == NemesisFailed <==> Verified(e, expSeq) && e.stop == None && |e.retries| >= 2 && !e.nemesisOk)
    && (Verified(e, expSeq) && e.stop == None && (|e.retries| < 2 || e.nemesisOk) ==>
          r == Returned(if e.retries[|e.retries| - 1] == Panics then 0 else LastTried(e)))
  }

  /** A key that should be there is missing from the scan. */
  ghost predicate KeyIsLost(e: Epoch, expSeq: nat)
  {
    e.openOk && exists k: nat :: 0 < k <= expSeq && k !in e.scan
  }

  lemma KeyIsFound(e: Epoch, expSeq: nat, k: nat)
    requires Verified(e, expSeq) && 0 < k <= expSeq
    ensures k in e.scan
  {
    assert e.scan[k - 1] == k;
  }

  lemma LostKeyFailsTheCheck(e: Epoch, expSeq: nat)
    requires KeyIsLost(e, expSeq)
    ensures !Verified(e, expSeq)
  {
    var k: nat :| 0 < k <= expSeq && k !in e.scan;
    if Verified(e, expSeq) {
      KeyIsFound(e, expSeq, k);
    }
  }

  lemma FaithfulCheckPasses(db: Db, e: Epoch, expSeq: nat)
    requires Faithful(db, e) && AlwaysPasses(db, expSeq) && e.openOk
    ensures Verified(e, expSeq)
  {
    var keys :| MayPersist(db, keys) && ScanOf(e.scan, keys);
    CheckIsAboutKeys(e.scan, keys, expSeq);
  }

  /** The writes of one epoch that succeed before the first failure. */
  method WriteUntilFailure(dir: Directory, e: Epoch)
    requires Clean(|e.scan|, dir.db)
    modifies dir
    ensures Clean(|e.scan| + e.successes, dir.db)
  {
    var counter: nat := |e.scan|;
    for i := 0 to e.successes
      invariant Clean(counter, dir.db) && counter == |e.scan| + i
    {
      WriteStaysClean(counter, dir.db, NoFault);
      var w := Write(counter, dir.db, NoFault);
      counter, dir.db := w.seq', w.db;
    }
  }

  /** One epoch. On a directory that keeps acknowledged writes the check raises an alarm only if the epoch
      before made that possible, and this epoch makes it possible for the next exactly if one of its writes
      panicked. A lost key raises an alarm. Without a panic the acknowledged keys are 1 to the returned number,
      which counts the keys found and all acknowledged writes. */
  method RunSyncer(dir: Directory, expSeq: nat, e: Epoch) returns (r: Result)
    requires Runs(e)
    modifies dir
    ensures EndsWith(e, expSeq, r)
    ensures Verified(e, expSeq) && e.stop == None && PanicFree(e) && (|e.retries| < 2 || e.nemesisOk) ==>
              r == Returned(|e.scan| + e.successes + Successes(e.retries))
    ensures KeyIsLost(e, expSeq) ==> r == FalseAlarm
    ensures Faithful(old(dir.db), e) && AlwaysPasses(old(dir.db), expSeq) ==> r != FalseAlarm
    ensures r.Returned? && r.lastSeq > 0 ==>
              && expSeq <= r.lastSeq
              && (AlwaysPasses(dir.db, r.lastSeq) <==> PanicFree(e))
              && (PanicFree(e) ==> Clean(r.lastSeq, dir.db))
  {
    if KeyIsLost(e, expSeq) {
      LostKeyFailsTheCheck(e, expSeq);
    }
    if !e.openOk {
      if expSeq == 0 {
        return OpenFailed;
      }
      return Returned(0);
    }
    if Faithful(dir.db, e) && AlwaysPasses(dir.db, expSeq) {
      FaithfulCheckPasses(dir.db, e, expSeq);
    }
    var verdict := Verify(e.scan, expSeq);
    if !verdict.Passed? {
      return FalseAlarm;
    }
    dir.db := Db(UpTo(verdict.counter), {});
    WriteUntilFailure(dir, e);
    match e.stop {
      case Some(Signalled) => r := Interrupted;
      case Some(TimedOut) => r := Returned(0);
      case None =>
        r := FailAndRetry(dir, e);
        if r.Returned? && r.lastSeq > 0 {
          PassesUnlessPanicked(!PanicFree(e), r.lastSeq, dir.db);
        }
    }
  }

  /** One epoch of a run: the directory by its generation, what it held, and what came of it. */
  datatype Record = Record(generation: nat, before: Db, expSeq: nat, epoch: Epoch, result: Result, after: Db)

  /** Each epoch expects what the last one returned. It goes on in the same directory, or in a new one if that
      was zero. */
  ghost predicate Follows(prev: Record, rec: Record)
  {
    && prev.result.Returned? && rec.expSeq == prev.result.lastSeq
    && if prev.result.lastSeq > 0 then rec.generation == prev.generation && rec.before == prev.after
       else rec.generation == prev.generation + 1 && rec.before == EMPTY_DB && prev.epoch.stop != Some(TimedOut)
  }

  ghost predicate Explained(plan: (nat, Db) -> Epoch, i: nat, rec: Record)
  {
    && rec.epoch == plan(i, rec.before) && Runs(rec.epoch)
    && EndsWith(rec.epoch, rec.expSeq, rec.result)
  }

  /** The epochs of a run, from an empty directory on. */
  ghost predicate Chronicle(plan: (nat, Db) -> Epoch, history: seq<Record>)
  {
    && (history != [] ==> history[0].generation == 0 && history[0].expSeq == 0 && history[0].before == EMPTY_DB)
    && (forall i :: 0 <= i < |history| ==> Explained(plan, i, history[i]))
    && (forall i :: 0 < i < |history| ==> Follows(history[i - 1], history[i]))
  }

  /** Where the run stands after an epoch that does not end it. */
  ghost predicate Resumed(history: seq<Record>, lastSeq: nat, generation: nat, db: Db)
  {
    if history == [] then lastSeq == 0 && generation == 0 && db == EMPTY_DB
    else
      var last := history[|history| - 1];
      && last.result == Returned(lastSeq)
      && if lastSeq > 0 then generation == last.generation && db == last.after
         else generation == last.generation + 1 && db == EMPTY_DB && last.epoch.stop != Some(TimedOut)
  }

  lemma ChronicleSnoc(plan: (nat, Db) -> Epoch, history: seq<Record>, rec: Record)
    requires Chronicle(plan, history) && Resumed(history, rec.expSeq, rec.generation, rec.before)
    requires Explained(plan, |history|, rec)
    ensures Chronicle(plan, history + [rec])
  {
    var longer := history + [rec];
    forall i | 0 < i < |longer|
      ensures Follows(longer[i - 1], longer[i])
    {
      if i < |history| {
        assert Follows(history[i - 1], history[i]);
      }
    }
  }

  /** A key that is missing raises an alarm, and an alarm is the end. */
  lemma LostKeyEndsTheRun(plan: (nat, Db) -> Epoch, history: seq<Record>, i: nat)
    requires Chronicle(plan, history) && i < |history| && KeyIsLost(history[i].epoch, history[i].expSeq)
    ensures i == |history| - 1 && history[i].result == FalseAlarm
  {
    assert i + 1 < |history| ==> Follows(history[i + 1 - 1], history[i + 1]);
    assert Explained(plan, i, history[i]);
    LostKeyFailsTheCheck(history[i].epoch, history[i].expSeq);
  }

  /** What an epoch expects, and what it returns if not zero, is what was acknowledged: 1 up to that number. */
  ghost predicate Tracked(rec: Record)
  {
    && rec.before.acked == UpTo(rec.expSeq)
    && (rec.result.Returned? && rec.result.lastSeq > 0 ==> rec.after.acked == UpTo(rec.result.lastSeq))
  }

  /** What a run may rely on if no write panics. */
  ghost predicate Calm(plan: (nat, Db) -> Epoch)
  {
    forall i, db :: PanicFree(plan(i, db))
  }

  ghost predicate Lossless(plan: (nat, Db) -> Epoch)
  {
    forall i, db :: Faithful(db, plan(i, db))
  }

  /** runDebugSyncTest: epoch after epoch. A lost key stops the run with an alarm. However long it runs, no check
      fails if no write panics and no acknowledged key is lost. `plan` yields the next epoch for the state of the
      directory. */
  method RunDebugSyncTest(plan: (nat, Db) -> Epoch, epochs: nat) returns (r: Result, history: seq<Record>)
    requires forall i, db :: Runs(plan(i, db))
    ensures Chronicle(plan, history) && |history| <= epochs
    ensures if history == [] then epochs == 0 else history[|history| - 1].result == r
    ensures |history| < epochs ==>
              !r.Returned? || (r.lastSeq == 0 && history[|history| - 1].epoch.stop == Some(TimedOut))
    ensures forall i :: 0 <= i < |history| && KeyIsLost(history[i].epoch, history[i].expSeq) ==>
              i == |history| - 1 && r == FalseAlarm
    ensures Calm(plan) && Lossless(plan) ==> r != FalseAlarm
    ensures Calm(plan) ==> forall i :: 0 <= i < |history| ==> Tracked(history[i])
  {
    var dir := new Directory();
    var generation: nat := 0;
    r, history := Returned(0), [];
    while |history| < epochs
      invariant |history| <= epochs && r.Returned? && fresh(dir)
      invariant Chronicle(plan, history) && Resumed(history, r.lastSeq, generation, dir.db)
      invariant Calm(plan) ==> Clean(r.lastSeq, dir.db)
      invariant Calm(plan) ==> forall i :: 0 <= i < |history| ==> Tracked(history[i])
      decreases epochs - |history|
    {
      var rec := RunEpoch(dir, generation, r.lastSeq, plan, |history|);
      ChronicleSnoc(plan, history, rec);
      r, history := rec.result, history + [rec];
      if !r.Returned? || (r.lastSeq == 0 && rec.epoch.stop == Some(TimedOut)) {
        break;
      }
      if r.lastSeq == 0 {
        generation := generation + 1;
        dir := new Directory();
      }
    }
    forall i | 0 <= i < |history| && KeyIsLost(history[i].epoch, history[i].expSeq)
      ensures i == |history| - 1 && r == FalseAlarm
    {
      LostKeyEndsTheRun(plan, history, i);
    }
  }

  /** One epoch, put on record. */
  method RunEpoch(dir: Directory, generation: nat, expSeq: nat, plan: (nat, Db) -> Epoch, i: nat) returns (rec: Record)
    requires Runs(plan(i, dir.db)) && (Calm(plan) ==> Clean(expSeq, dir.db))
    modifies dir
    ensures rec.generation == generation && rec.expSeq == expSeq && rec.before == old(dir.db) && rec.after == dir.db
    ensures Explained(plan, i, rec)
    ensures Calm(plan) && Lossless(plan) ==> rec.result != FalseAlarm
    ensures Calm(plan) ==> Tracked(rec)
    ensures Calm(plan) && rec.result.Returned? && rec.result.lastSeq > 0 ==> Clean(rec.result.lastSeq, dir.db)
  {
    if Calm(plan) {
      CleanAlwaysPasses(expSeq, dir.db);
    }
    var before := dir.db;
    var epoch := plan(i, before);
    var r := RunSyncer(dir, expSeq, epoch);
    rec := Record(generation, before, expSeq, epoch, r, dir.db);
  }
}
