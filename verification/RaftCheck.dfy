/**
 The raft state check of a store: one scan over the range-local keys collects, per range, the bounds of
 the raft log and the truncated, applied and committed indexes, which are then compared. Indexes are
 unsigned 64-bit numbers and wrap around.
 */
module RaftCheck {
  import opened Common

  const TWO_64: nat := 0x1_0000_0000_0000_0000

  type Index = x: nat | x < TWO_64

  type RangeID = int

  function Succ(x: Index): Index
  {
    if x + 1 == TWO_64 then 0 else x + 1
  }

  function Pred(x: Index): Index
  {
    if x == 0 then TWO_64 - 1 else x - 1
  }

  /** A key of the scanned space; `Undecodable` stands for a key or value that does not decode. */
  datatype KV =
    | HardState(range: RangeID, commit: Index)
    | TruncatedState(range: RangeID, index: Index)
    | AppliedState(range: RangeID, index: Index)
    | LogEntry(range: RangeID, index: Index)
    | Other(range: RangeID)
    | Undecodable

  datatype Info = Info(truncated: Index, applied: Index, first: Index, last: Index, committed: Index)

  const NO_INFO := Info(0, 0, 0, 0, 0)

  // ---------- What the scan says about a range ----------

  predicate Mentions(kv: KV, r: RangeID)
  {
    !kv.Undecodable? && !kv.Other? && kv.range == r
  }

  /** The log indexes of a range, in scan order. A zero index means that no entry was seen yet, so zeros in
      front are not noticed. */
  function Log(scan: seq<KV>, r: RangeID): (log: seq<Index>)
    ensures log != [] ==> log[0] > 0
  {
    if scan == [] then []
    else
      var kv, before := scan[|scan| - 1], Log(scan[..|scan| - 1], r);
      if kv.LogEntry? && kv.range == r && (before != [] || kv.index > 0) then before + [kv.index] else before
  }

  /** All log indexes of a range, in scan order. */
  function Entries(scan: seq<KV>, r: RangeID): seq<Index>
  {
    if scan == [] then []
    else
      var kv := scan[|scan| - 1];
      Entries(scan[..|scan| - 1], r) + if kv.LogEntry? && kv.range == r then [kv.index] else []
  }

  /** Raft logs start at index 1; then nothing goes unnoticed. */
  lemma {:induction false} PositiveLog(scan: seq<KV>, r: RangeID)
    requires Entries(scan, r) != [] ==> Entries(scan, r)[0] > 0
    ensures Log(scan, r) == Entries(scan, r)
  {
    if scan != [] {
      var init := scan[..|scan| - 1];
      assert Entries(init, r) <= Entries(scan, r);
      PositiveLog(init, r);
    }
  }

  /** The index last seen under a kind of key, or zero. */
  function Latest(scan: seq<KV>, pick: KV -> Option<Index>): Index
  {
    if scan == [] then 0
    else
      match pick(scan[|scan| - 1])
      case Some(index) => index
      case None => Latest(scan[..|scan| - 1], pick)
  }

  function Commit(r: RangeID): KV -> Option<Index>
  {
    (kv: KV) => if kv.HardState? && kv.range == r then Some(kv.commit) else None
  }

  function Truncated(r: RangeID): KV -> Option<Index>
  {
    (kv: KV) => if kv.TruncatedState? && kv.range == r then Some(kv.index) else None
  }

  function Applied(r: RangeID): KV -> Option<Index>
  {
    (kv: KV) => if kv.AppliedState? && kv.range == r then Some(kv.index) else None
  }

  ghost predicate Contiguous(log: seq<Index>)
  {
    forall i :: 0 < i < |log| ==> log[i] == Succ(log[i - 1])
  }

  /** Nothing is wrong with a range. Without a log entry its first and last index read as zero. */
  ghost predicate RangeIsSound(scan: seq<KV>, r: RangeID)
  {
    var log := Log(scan, r);
    var first: Index := if log == [] then 0 else log[0];
    var last: Index := if log == [] then 0 else log[|log| - 1];
    var truncated, applied, committed := Latest(scan, Truncated(r)), Latest(scan, Applied(r)), Latest(scan, Commit(r));
    && Contiguous(log)
    && first <= last
    && (truncated == 0 || truncated == Pred(first))
    && first <= applied <= last
    && applied <= committed <= last
  }

  ghost predicate IsRange(scan: seq<KV>, r: RangeID)
  {
    exists i :: 0 <= i < |scan| && Mentions(scan[i], r)
  }

  // ---------- The checker ----------

  datatype Verdict = Sound | FoundProblem | DecodeError

  function InfoOf(scan: seq<KV>, r: RangeID): Info
  {
    var log := Log(scan, r);
    Info(Latest(scan, Truncated(r)), Latest(scan, Applied(r)),
         if log == [] then 0 else log[0], if log == [] then 0 else log[|log| - 1],
         Latest(scan, Commit(r)))
  }

  /** What one key adds to the record of its range. */
  function Absorb(info: Info, kv: KV): Info
  {
    match kv
    case HardState(_, commit) => info.(committed := commit)
    case TruncatedState(_, index) => info.(truncated := index)
    case AppliedState(_, index) => info.(applied := index)
    case LogEntry(_, index) =>
      if info.first == 0 then info.(first := index, last := index) else info.(last := index)
    case _ => info
  }

  /** A log entry that does not follow the one before it. */
  predicate Anomalous(info: Info, kv: KV)
  {
    kv.LogEntry? && info.first != 0 && kv.index != Succ(info.last)
  }

  lemma InfoSnoc(scan: seq<KV>, kv: KV, r: RangeID)
    ensures InfoOf(scan + [kv], r) == if Mentions(kv, r) then Absorb(InfoOf(scan, r), kv) else InfoOf(scan, r)
    ensures Contiguous(Log(scan + [kv], r)) <==>
            Contiguous(Log(scan, r)) && !(Mentions(kv, r) && Anomalous(InfoOf(scan, r), kv))
  {
    assert (scan + [kv])[..|scan|] == scan;
    var log, log' := Log(scan, r), Log(scan + [kv], r);
    if kv.LogEntry? && kv.range == r && (log != [] || kv.index > 0) {
      assert log' == log + [kv.index];
      assert forall i :: 0 <= i < |log| ==> log'[i] == log[i];
    } else {
      assert log' == log;
    }
  }

  lemma IsRangeSnoc(scan: seq<KV>, kv: KV, r: RangeID)
    ensures IsRange(scan + [kv], r) <==> IsRange(scan, r) || Mentions(kv, r)
  {
    var scan' := scan + [kv];
    if IsRange(scan, r) {
      var i :| 0 <= i < |scan| && Mentions(scan[i], r);
      assert Mentions(scan'[i], r);
    }
    if Mentions(kv, r) {
      assert Mentions(scan'[|scan|], r);
    }
  }

  lemma {:induction false} UnmentionedRange(scan: seq<KV>, r: RangeID)
    requires !IsRange(scan, r)
    ensures InfoOf(scan, r) == NO_INFO && Log(scan, r) == []
  {
    if scan != [] {
      var init, kv := scan[..|scan| - 1], scan[|scan| - 1];
      assert scan == init + [kv];
      IsRangeSnoc(init, kv, r);
      UnmentionedRange(init, r);
    }
  }

  predicate InfoIsSound(info: Info)
  {
    && (info.truncated == 0 || info.truncated == Pred(info.first))
    && info.first <= info.last
    && info.first <= info.applied <= info.last
    && info.applied <= info.committed
    && info.committed <= info.last
  }

  /** The collected state reflects the part of the store scanned so far. */
  ghost predicate StateReflects(infos: map<RangeID, Info>, found: bool, scan: seq<KV>)
  {
    && (forall r :: r in infos <==> IsRange(scan, r))
    && (forall r :: r in infos ==> infos[r] == InfoOf(scan, r))
    && (found <==> exists r :: r in infos && !Contiguous(Log(scan, r)))
  }

  lemma VisitReflects(infos: map<RangeID, Info>, found: bool, kv: KV, scan: seq<KV>, infos': map<RangeID, Info>, found': bool)
    requires StateReflects(infos, found, scan) && !kv.Undecodable?
    requires kv.Other? ==> infos' == infos && found' == found
    requires !kv.Other? ==>
               var info := if kv.range in infos then infos[kv.range] else NO_INFO;
               infos' == infos[kv.range := Absorb(info, kv)] && found' == (found || Anomalous(info, kv))
    ensures StateReflects(infos', found', scan + [kv])
  {
    forall r
      ensures r in infos' <==> IsRange(scan + [kv], r)
      ensures r in infos' ==> infos'[r] == InfoOf(scan + [kv], r)
      ensures r in infos' && !Contiguous(Log(scan + [kv], r)) <==>
              (r in infos && !Contiguous(Log(scan, r))) || (Mentions(kv, r) && Anomalous(InfoOf(scan, r), kv))
    {
      IsRangeSnoc(scan, kv, r);
      InfoSnoc(scan, kv, r);
      if !IsRange(scan, r) {
        UnmentionedRange(scan, r);
      }
    }
    if !kv.Other? {
      var info := if kv.range in infos then infos[kv.range] else NO_INFO;
      assert info == InfoOf(scan, kv.range) by {
        if !IsRange(scan, kv.range) {
          UnmentionedRange(scan, kv.range);
        }
      }
      assert forall r :: Mentions(kv, r) ==> r == kv.range;
      assert Mentions(kv, kv.range);
    }
    if found {
      var r :| r in infos && !Contiguous(Log(scan, r));
      assert r in infos' && !Contiguous(Log(scan + [kv], r));
    } else if found' {
      assert kv.range in infos' && !Contiguous(Log(scan + [kv], kv.range));
    }
  }

  class StoreChecker {
    var replicaInfo: map<RangeID, Info>
    var foundProblem: bool

    ghost predicate Reflects(scan: seq<KV>)
      reads this
    {
      StateReflects(replicaInfo, foundProblem, scan)
    }

    constructor ()
      ensures Reflects([])
    {
      replicaInfo, foundProblem := map[], false;
    }

    method GetReplicaInfo(r: RangeID) returns (info: Info)
      ensures info == if r in replicaInfo then replicaInfo[r] else NO_INFO
    {
      if r in replicaInfo {
        return replicaInfo[r];
      }
      return NO_INFO;
    }

    /** The iteration callback; false is a decoding error. */
    method Visit(kv: KV, ghost scan: seq<KV>) returns (ok: bool)
      requires Reflects(scan)
      modifies this
      ensures ok == !kv.Undecodable?
      ensures ok ==> Reflects(scan + [kv])
    {
      ok := true;
      match kv {
        case HardState(r, commit) =>
          var info := GetReplicaInfo(r);
          replicaInfo := replicaInfo[r := info.(committed := commit)];
        case TruncatedState(r, index) =>
          var info := GetReplicaInfo(r);
          replicaInfo := replicaInfo[r := info.(truncated := index)];
        case AppliedState(r, index) =>
          var info := GetReplicaInfo(r);
          replicaInfo := replicaInfo[r := info.(applied := index)];
        case LogEntry(r, index) =>
          var info := GetReplicaInfo(r);
          if info.first == 0 {
            info := info.(first := index, last := index);
          } else {
            if index != Succ(info.last) {
              foundProblem := true;
            }
            info := info.(last := index);
          }
          replicaInfo := replicaInfo[r := info];
        case Other(_) =>
        case Undecodable =>
          ok := false;
      }
      if ok {
        VisitReflects(old(replicaInfo), old(foundProblem), kv, scan, replicaInfo, foundProblem);
      }
    }

    /** The checks after the scan, over all ranges in any order. */
    method CompareIndexes()
      modifies this`foundProblem
      ensures foundProblem == (old(foundProblem) || exists r :: r in replicaInfo && !InfoIsSound(replicaInfo[r]))
    {
      var rest: set<RangeID> := replicaInfo.Keys;
      while rest != {}
        invariant rest <= replicaInfo.Keys
        invariant foundProblem ==
                  (old(foundProblem) || exists r :: r in replicaInfo && r !in rest && !InfoIsSound(replicaInfo[r]))
        decreases rest
      {
        var r := AnyOf(rest);
        var info := replicaInfo[r];
        if info.truncated != 0 && info.truncated != Pred(info.first) {
          foundProblem := true;
        }
        if info.first > info.last {
          foundProblem := true;
        }
        if info.applied < info.first || info.applied > info.last {
          foundProblem := true;
        }
        if info.applied > info.committed {
          foundProblem := true;
        }
        if info.committed > info.last {
          foundProblem := true;
        }
        rest := rest - {r};
      }
    }
  }

  /** The scan; `ok` is false when a key did not decode. */
  method ScanStore(scan: seq<KV>) returns (checker: StoreChecker, ok: bool)
    ensures fresh(checker) && ok == (Undecodable !in scan)
    ensures ok ==> checker.Reflects(scan)
  {
    checker := new StoreChecker();
    for i := 0 to |scan|
      invariant checker.Reflects(scan[..i]) && Undecodable !in scan[..i] && fresh(checker)
    {
      assert scan[..i + 1] == scan[..i] + [scan[i]];
      ok := checker.Visit(scan[i], scan[..i]);
      if !ok {
        return;
      }
    }
    assert scan[..|scan|] == scan;
    ok := true;
  }

  /** checkStoreRaftState reports no problem exactly if every key decodes and every range is sound. */
  method CheckStoreRaftState(scan: seq<KV>) returns (v: Verdict)
    ensures v == DecodeError <==> Undecodable in scan
    ensures v == Sound <==> Undecodable !in scan && forall r :: IsRange(scan, r) ==> RangeIsSound(scan, r)
  {
    var checker, ok := ScanStore(scan);
    if !ok {
      return DecodeError;
    }
    SoundRanges(checker.replicaInfo, checker.foundProblem, scan);
    checker.CompareIndexes();
    if checker.foundProblem {
      return FoundProblem;
    }
    assert forall r :: r in checker.replicaInfo ==> InfoIsSound(checker.replicaInfo[r]);
    return Sound;
  }

  lemma SoundRanges(infos: map<RangeID, Info>, found: bool, scan: seq<KV>)
    requires StateReflects(infos, found, scan)
    ensures !found && (forall r :: r in infos ==> InfoIsSound(infos[r])) <==>
            forall r :: IsRange(scan, r) ==> RangeIsSound(scan, r)
  {
    forall r
      ensures IsRange(scan, r) ==>
                (RangeIsSound(scan, r) <==> Contiguous(Log(scan, r)) && r in infos && InfoIsSound(infos[r]))
    {
    }
  }

  /** For a range with a log whose indexes ascend from one or more, soundness is what an operator expects:
      the log has no gap, was truncated just before its first entry or never, and applied and committed lie
      in order within it. */
  lemma SoundnessOfAscendingLog(scan: seq<KV>, r: RangeID)
    requires Entries(scan, r) != [] && Entries(scan, r)[0] > 0
    requires forall i, j :: 0 <= i < j < |Entries(scan, r)| ==> Entries(scan, r)[i] < Entries(scan, r)[j]
    ensures var log := Entries(scan, r);
            var first, last := log[0], log[|log| - 1];
            RangeIsSound(scan, r) <==>
              && (forall i :: 0 <= i < |log| ==> log[i] == first + i)
              && (Latest(scan, Truncated(r)) == 0 || Latest(scan, Truncated(r)) == first - 1)
              && first <= Latest(scan, Applied(r)) <= Latest(scan, Commit(r)) <= last
  {
    PositiveLog(scan, r);
    if Contiguous(Log(scan, r)) {
      GaplessFrom(Log(scan, r));
    }
  }

  lemma {:induction false} GaplessFrom(log: seq<Index>)
    requires log != [] && Contiguous(log)
    requires forall i, j :: 0 <= i < j < |log| ==> log[i] < log[j]
    ensures forall i :: 0 <= i < |log| ==> log[i] == log[0] + i
  {
    if |log| > 1 {
      var init := log[..|log| - 1];
      GaplessFrom(init);
      assert log[|log| - 1] == Succ(log[|log| - 2]);
    }
  }

  /** What counts as the log and as the latest indexes of a range: of each kind of key, those of the range, and of
      the last one read the index. */
  lemma LatestOf(scan: seq<KV>, kv: KV, r: RangeID)
    ensures var scan' := scan + [kv];
            && Entries(scan', r) == Entries(scan, r) + (if kv.LogEntry? && kv.range == r then [kv.index] else [])
            && Latest(scan', Commit(r)) ==
               (if kv.HardState? && kv.range == r then kv.commit else Latest(scan, Commit(r)))
            && Latest(scan', Truncated(r)) ==
               (if kv.TruncatedState? && kv.range == r then kv.index else Latest(scan, Truncated(r)))
            && Latest(scan', Applied(r)) ==
               (if kv.AppliedState? && kv.range == r then kv.index else Latest(scan, Applied(r)))
  {
    assert (scan + [kv])[..|scan|] == scan;
  }

  /** A range without log entries is sound exactly if nothing was applied or committed, and nothing truncated but up
      to the largest index. */
  lemma SoundnessOfEmptyLog(scan: seq<KV>, r: RangeID)
    requires Entries(scan, r) == []
    ensures RangeIsSound(scan, r) <==>
              && Latest(scan, Applied(r)) == 0 && Latest(scan, Commit(r)) == 0
              && (Latest(scan, Truncated(r)) == 0 || Latest(scan, Truncated(r)) == 0xFFFF_FFFF_FFFF_FFFF)
  {
    PositiveLog(scan, r);
  }
}
