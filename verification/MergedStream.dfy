/** What a merge of several files is, in terms of values alone. */
module MergeSpec {
  import opened Common
  import opened LogEntries

  /** A delivered entry together with the file it came from. */
  datatype Delivery = Delivery(entry: Entry, file: nat)

  /** The entries of `out` that came from `file`, in order. */
  function FromFile(out: seq<Delivery>, file: nat): seq<Entry>
  {
    if out == [] then []
    else
      var d := out[|out| - 1];
      FromFile(out[..|out| - 1], file) + if d.file == file then [d.entry] else []
  }

  function EntriesOf(out: seq<Delivery>): seq<Entry>
  {
    seq(|out|, i requires 0 <= i < |out| => out[i].entry)
  }

  ghost predicate Sorted(out: seq<Delivery>)
  {
    forall i, j :: 0 <= i < j < |out| ==> out[i].entry.time <= out[j].entry.time
  }

  /** Of each file, `out` holds what was delivered between `initial` and `now`, in order, and nothing
      else. */
  ghost predicate Accounted(initial: seq<seq<Entry>>, now: seq<seq<Entry>>, out: seq<Delivery>)
    requires |initial| == |now|
  {
    && (forall f :: 0 <= f < |now| ==> FromFile(out, f) + now[f] == initial[f])
    && (forall i :: 0 <= i < |out| ==> out[i].file < |now|)
  }

  /** `out` is sorted, and nothing left is earlier. */
  ghost predicate Ahead(now: seq<seq<Entry>>, out: seq<Delivery>)
  {
    && Sorted(out)
    && (out != [] ==> forall f :: 0 <= f < |now| && now[f] != [] ==> out[|out| - 1].entry.time <= now[f][0].time)
  }

  /** Halfway through a merge; the entries delivered and left are together the initial ones. */
  ghost predicate Merging(initial: seq<seq<Entry>>, now: seq<seq<Entry>>, out: seq<Delivery>)
  {
    && |initial| == |now|
    && Accounted(initial, now, out)
    && Ahead(now, out)
    && multiset(EntriesOf(out)) + multiset(Flatten(now)) == multiset(Flatten(initial))
  }

  lemma {:induction false} FlattenAdvance(now: seq<seq<Entry>>, f: nat)
    requires f < |now| && now[f] != []
    ensures var now' := now[f := now[f][1..]];
            && multiset(Flatten(now)) == multiset{now[f][0]} + multiset(Flatten(now'))
            && |Flatten(now)| == |Flatten(now')| + 1
  {
    var now' := now[f := now[f][1..]];
    if f == 0 {
      assert now[0] == [now[0][0]] + now'[0];
      assert Flatten(now) == [now[0][0]] + Flatten(now');
    } else {
      FlattenAdvance(now[1..], f - 1);
      assert now'[1..] == now[1..][f - 1 := now[f][1..]];
    }
  }

  lemma {:induction false} NothingLeft(now: seq<seq<Entry>>)
    requires forall f :: 0 <= f < |now| ==> now[f] == []
    ensures Flatten(now) == []
  {
    if now != [] {
      NothingLeft(now[1..]);
    }
  }

  lemma FromFileSnoc(out: seq<Delivery>, d: Delivery, f: nat)
    ensures FromFile(out + [d], f) == FromFile(out, f) + if d.file == f then [d.entry] else []
  {
    assert (out + [d])[..|out|] == out;
  }

  lemma AccountedSnoc(initial: seq<seq<Entry>>, now: seq<seq<Entry>>, out: seq<Delivery>, d: Delivery)
    requires |initial| == |now| && Accounted(initial, now, out)
    requires d.file < |now| && now[d.file] != [] && d.entry == now[d.file][0]
    ensures Accounted(initial, now[d.file := now[d.file][1..]], out + [d])
  {
    var now' := now[d.file := now[d.file][1..]];
    forall f | 0 <= f < |now|
      ensures FromFile(out + [d], f) + now'[f] == initial[f]
    {
      FromFileSnoc(out, d, f);
      if f == d.file {
        assert now[f] == [d.entry] + now'[f];
        assert (FromFile(out, f) + [d.entry]) + now'[f] == FromFile(out, f) + now[f];
      }
    }
  }

  lemma AheadSnoc(now: seq<seq<Entry>>, out: seq<Delivery>, d: Delivery)
    requires Ahead(now, out)
    requires d.file < |now| && now[d.file] != [] && d.entry == now[d.file][0] && NonDecreasing(now[d.file])
    requires forall f :: 0 <= f < |now| && now[f] != [] ==> d.entry.time <= now[f][0].time
    ensures Ahead(now[d.file := now[d.file][1..]], out + [d])
  {
  }

  /** Delivering an entry that is no later than any other entry left. */
  lemma MergingSnoc(initial: seq<seq<Entry>>, now: seq<seq<Entry>>, out: seq<Delivery>, d: Delivery)
    requires Merging(initial, now, out)
    requires d.file < |now| && now[d.file] != [] && d.entry == now[d.file][0] && NonDecreasing(now[d.file])
    requires forall f :: 0 <= f < |now| && now[f] != [] ==> d.entry.time <= now[f][0].time
    ensures Merging(initial, now[d.file := now[d.file][1..]], out + [d])
  {
    AccountedSnoc(initial, now, out, d);
    AheadSnoc(now, out, d);
    AccountedEntries(initial, now[d.file := now[d.file][1..]], out + [d]);
  }

  lemma MergeStarts(initial: seq<seq<Entry>>)
    ensures Merging(initial, initial, [])
  {
  }

  /** The whole of every file, each in its own order, sorted by time. */
  ghost predicate IsMerge(files: seq<seq<Entry>>, out: seq<Delivery>)
  {
    && Sorted(out)
    && (forall f :: 0 <= f < |files| ==> FromFile(out, f) == files[f])
    && (forall i :: 0 <= i < |out| ==> out[i].file < |files|)
    && multiset(EntriesOf(out)) == multiset(Flatten(files))
  }

  lemma MergeEnds(initial: seq<seq<Entry>>, now: seq<seq<Entry>>, out: seq<Delivery>)
    requires Merging(initial, now, out)
    requires forall f :: 0 <= f < |now| ==> now[f] == []
    ensures IsMerge(initial, out)
  {
    NothingLeft(now);
    forall f | 0 <= f < |initial|
      ensures FromFile(out, f) == initial[f]
    {
      assert FromFile(out, f) + now[f] == initial[f];
    }
  }

  /** `out` is what a merge of the files has delivered at some point. */
  ghost predicate BeginsMerge(files: seq<seq<Entry>>, out: seq<Delivery>)
  {
    exists left :: Merging(files, left, out)
  }

  /** An entry counts the same whether it was delivered or is left. */
  lemma DeliveredOrLeft(now: seq<seq<Entry>>, front: seq<Delivery>, d: Delivery)
    requires d.file < |now|
    ensures var before := now[d.file := [d.entry] + now[d.file]];
            multiset(EntriesOf(front + [d])) + multiset(Flatten(now))
            == multiset(EntriesOf(front)) + multiset(Flatten(before))
  {
    var before := now[d.file := [d.entry] + now[d.file]];
    FlattenAdvance(before, d.file);
    assert before[d.file][1..] == now[d.file];
    assert before[d.file := now[d.file]] == now;
    assert EntriesOf(front + [d]) == EntriesOf(front) + [d.entry];
  }

  lemma NothingDelivered(initial: seq<seq<Entry>>, now: seq<seq<Entry>>)
    requires |initial| == |now| && Accounted(initial, now, [])
    ensures now == initial
  {
    forall f | 0 <= f < |now|
      ensures now[f] == initial[f]
    {
      assert FromFile([], f) + now[f] == now[f];
    }
  }

  /** If every file is accounted for, so is the multiset of all entries. */
  lemma {:induction false} AccountedEntries(initial: seq<seq<Entry>>, now: seq<seq<Entry>>, out: seq<Delivery>)
    requires |initial| == |now| && Accounted(initial, now, out)
    ensures multiset(EntriesOf(out)) + multiset(Flatten(now)) == multiset(Flatten(initial))
    decreases |out|
  {
    if out == [] {
      NothingDelivered(initial, now);
    } else {
      var front, d := out[..|out| - 1], out[|out| - 1];
      assert out == front + [d];
      UndoDelivery(initial, now, front, d);
      AccountedEntries(initial, now[d.file := [d.entry] + now[d.file]], front);
      DeliveredOrLeft(now, front, d);
    }
  }

  lemma UndoForFile(front: seq<Delivery>, d: Delivery, f: nat, now: seq<Entry>, whole: seq<Entry>)
    requires FromFile(front + [d], f) + now == whole
    ensures FromFile(front, f) + (if d.file == f then [d.entry] + now else now) == whole
  {
    FromFileSnoc(front, d, f);
    if d.file == f {
      Regroup(FromFile(front, f), [d.entry], now);
    } else {
      assert FromFile(front, f) + [] == FromFile(front, f);
    }
  }

  lemma UndoDelivery(initial: seq<seq<Entry>>, now: seq<seq<Entry>>, front: seq<Delivery>, d: Delivery)
    requires |initial| == |now| && Accounted(initial, now, front + [d])
    ensures d.file < |now| && Accounted(initial, now[d.file := [d.entry] + now[d.file]], front)
  {
    assert (front + [d])[|front|] == d;
    forall i | 0 <= i < |front|
      ensures front[i].file < |now|
    {
      assert (front + [d])[i] == front[i];
    }
    forall f | 0 <= f < |now|
      ensures FromFile(front, f) + now[d.file := [d.entry] + now[d.file]][f] == initial[f]
    {
      UndoForFile(front, d, f, now[f], initial[f]);
    }
  }

  /** What is left of each file after `out`. */
  ghost predicate Leaves(files: seq<seq<Entry>>, out: seq<Delivery>, left: seq<seq<Entry>>)
  {
    && |left| == |files|
    && forall f :: 0 <= f < |files| ==> FromFile(out, f) <= files[f] && left[f] == files[f][|FromFile(out, f)|..]
  }

  lemma LeavesAccounts(files: seq<seq<Entry>>, out: seq<Delivery>, left: seq<seq<Entry>>)
    requires Leaves(files, out, left) && forall i :: 0 <= i < |out| ==> out[i].file < |files|
    ensures Accounted(files, left, out)
  {
    forall f | 0 <= f < |files|
      ensures FromFile(out, f) + left[f] == files[f]
    {
    }
  }

  lemma MergingLeaves(files: seq<seq<Entry>>, left: seq<seq<Entry>>, out: seq<Delivery>)
    requires Merging(files, left, out)
    ensures Leaves(files, out, left)
  {
    forall f | 0 <= f < |files|
      ensures FromFile(out, f) <= files[f] && left[f] == files[f][|FromFile(out, f)|..]
    {
      assert FromFile(out, f) + left[f] == files[f];
    }
  }

  // ---------- Files that are cut short ----------

  /** The first `keep[f]` entries of each file. */
  function Kept(files: seq<seq<Entry>>, keep: seq<nat>): (kept: seq<seq<Entry>>)
    requires |keep| == |files| && forall f :: 0 <= f < |files| ==> keep[f] <= |files[f]|
    ensures |kept| == |files|
  {
    seq(|files|, f requires 0 <= f < |files| => files[f][..keep[f]])
  }

  /** How the streams may be cut: the first entry always survives, and something is cut only if a file
      fails that is itself not cut. */
  ghost predicate CutsAllowed(files: seq<seq<Entry>>, fails: seq<bool>, keep: seq<nat>)
  {
    && |fails| == |files| == |keep|
    && (forall f :: 0 <= f < |files| ==> keep[f] <= |files[f]| && (files[f] != [] ==> keep[f] > 0))
    && ((exists f :: 0 <= f < |files| && keep[f] < |files[f]|) ==>
          exists g :: 0 <= g < |files| && fails[g] && keep[g] == |files[g]|)
  }

  /** No entry that was cut off is earlier than the last one delivered. */
  ghost predicate NothingEarlierDropped(files: seq<seq<Entry>>, keep: seq<nat>, out: seq<Delivery>)
    requires |keep| == |files|
  {
    out != [] ==>
      forall f, i :: 0 <= f < |files| && keep[f] <= i < |files[f]| ==> out[|out| - 1].entry.time <= files[f][i].time
  }

  lemma KeptPrefix(files: seq<seq<Entry>>, keep: seq<nat>, left: seq<seq<Entry>>, out: seq<Delivery>)
    requires |keep| == |files| && forall f :: 0 <= f < |files| ==> keep[f] <= |files[f]|
    requires Merging(Kept(files, keep), left, out)
    ensures forall f :: 0 <= f < |files| ==> FromFile(out, f) <= files[f] && |FromFile(out, f)| <= keep[f]
  {
    MergingLeaves(Kept(files, keep), left, out);
    forall f | 0 <= f < |files|
      ensures FromFile(out, f) <= files[f] && |FromFile(out, f)| <= keep[f]
    {
      assert FromFile(out, f) <= files[f][..keep[f]];
    }
  }

  /** If a beginning of the merge of the whole files was delivered, nothing that was cut off is earlier. */
  lemma WholeMeansNothingEarlier(files: seq<seq<Entry>>, keep: seq<nat>, left: seq<seq<Entry>>, out: seq<Delivery>)
    requires |keep| == |files| && forall f :: 0 <= f < |files| ==> NonDecreasing(files[f])
    requires Merging(files, left, out) && forall f :: 0 <= f < |files| ==> |FromFile(out, f)| <= keep[f] <= |files[f]|
    ensures NothingEarlierDropped(files, keep, out)
  {
    MergingLeaves(files, left, out);
    if out != [] {
      forall f, i | 0 <= f < |files| && keep[f] <= i < |files[f]|
        ensures out[|out| - 1].entry.time <= files[f][i].time
      {
        assert left[f] != [] && left[f][0] == files[f][|FromFile(out, f)|];
      }
    }
  }

  lemma NextIsNotEarlier(files: seq<seq<Entry>>, keep: seq<nat>, left: seq<seq<Entry>>, out: seq<Delivery>, f: nat)
    requires |keep| == |files| && forall f :: 0 <= f < |files| ==> keep[f] <= |files[f]|
    requires Merging(Kept(files, keep), left, out) && NothingEarlierDropped(files, keep, out)
    requires out != [] && f < |files| && |FromFile(out, f)| < |files[f]|
    ensures out[|out| - 1].entry.time <= files[f][|FromFile(out, f)|].time
  {
    MergingLeaves(Kept(files, keep), left, out);
    var n := |FromFile(out, f)|;
    assert Kept(files, keep)[f] == files[f][..keep[f]];
    if n < keep[f] {
      assert left[f] == files[f][..keep[f]][n..] && left[f][0] == files[f][n];
    }
  }

  lemma NothingEarlierMeansWhole(files: seq<seq<Entry>>, keep: seq<nat>, left: seq<seq<Entry>>, out: seq<Delivery>)
    requires |keep| == |files| && forall f :: 0 <= f < |files| ==> keep[f] <= |files[f]|
    requires Merging(Kept(files, keep), left, out) && NothingEarlierDropped(files, keep, out)
    ensures BeginsMerge(files, out)
  {
    KeptPrefix(files, keep, left, out);
    var whole := seq(|files|, f requires 0 <= f < |files| => files[f][|FromFile(out, f)|..]);
    LeavesAccounts(files, out, whole);
    forall f | 0 <= f < |files| && whole[f] != [] && out != []
      ensures out[|out| - 1].entry.time <= whole[f][0].time
    {
      NextIsNotEarlier(files, keep, left, out, f);
    }
    AccountedEntries(files, whole, out);
    assert Merging(files, whole, out);
  }

  /** What was delivered of files that were cut short begins the merge of the whole files if and only if no
      entry that was cut off is earlier than the last one delivered. */
  lemma CutMergeIsMergeIff(files: seq<seq<Entry>>, keep: seq<nat>, out: seq<Delivery>)
    requires |keep| == |files|
    requires forall f :: 0 <= f < |files| ==> keep[f] <= |files[f]| && NonDecreasing(files[f])
    requires BeginsMerge(Kept(files, keep), out)
    ensures BeginsMerge(files, out) <==> NothingEarlierDropped(files, keep, out)
  {
    var left :| Merging(Kept(files, keep), left, out);
    KeptPrefix(files, keep, left, out);
    if BeginsMerge(files, out) {
      var left' :| Merging(files, left', out);
      WholeMeansNothingEarlier(files, keep, left', out);
    }
    if NothingEarlierDropped(files, keep, out) {
      NothingEarlierMeansWhole(files, keep, left, out);
    }
  }

  // ---------- What merging files comes to ----------

  /** Sorted output, a prefix of each file in its own order, and the beginning of a merge of the files as they
      were cut. There is an error exactly if a file fails; without one the output is the whole merge. */
  ghost predicate Outcome(files: seq<seq<Entry>>, fails: seq<bool>, keep: seq<nat>, out: seq<Delivery>, err: bool)
    requires CutsAllowed(files, fails, keep)
  {
    && Sorted(out)
    && (forall f :: 0 <= f < |files| ==> FromFile(out, f) <= files[f])
    && BeginsMerge(Kept(files, keep), out)
    && (err <==> true in fails)
    && (!err ==> IsMerge(files, out))
  }

  /** Without a file that fails nothing is cut. */
  lemma NothingFailsNothingCut(files: seq<seq<Entry>>, fails: seq<bool>, keep: seq<nat>)
    requires CutsAllowed(files, fails, keep) && true !in fails
    ensures Kept(files, keep) == files
  {
    forall f | 0 <= f < |files|
      ensures files[f][..keep[f]] == files[f]
    {
      assert forall g :: 0 <= g < |files| ==> !fails[g];
    }
  }

  /** Some file that fails is not cut, if one fails at all. */
  lemma SomeFailureIsWhole(files: seq<seq<Entry>>, fails: seq<bool>, keep: seq<nat>) returns (g: nat)
    requires CutsAllowed(files, fails, keep) && true in fails
    ensures g < |files| && fails[g] && keep[g] == |files[g]|
  {
    var f :| 0 <= f < |fails| && fails[f];
    if keep[f] == |files[f]| {
      g := f;
    } else {
      g :| 0 <= g < |files| && fails[g] && keep[g] == |files[g]|;
    }
  }

  lemma ThreeDeliveries(x: Delivery, y: Delivery, z: Delivery)
    requires x.file == z.file == 0 && y.file == 1
    ensures FromFile([x, y, z], 0) == [x.entry, z.entry] && FromFile([x, y, z], 1) == [y.entry]
  {
    var none: seq<Delivery> := [];
    assert none + [x] == [x] && [x] + [y] == [x, y] && [x, y] + [z] == [x, y, z];
    FromFileSnoc(none, x, 0);
    FromFileSnoc(none, x, 1);
    FromFileSnoc([x], y, 0);
    FromFileSnoc([x], y, 1);
    FromFileSnoc([x, y], z, 0);
    FromFileSnoc([x, y], z, 1);
  }

  lemma ThreeMerged(files: seq<seq<Entry>>, x: Delivery, y: Delivery, z: Delivery, out: seq<Delivery>)
    requires x.file == z.file == 0 && y.file == 1 && x.entry.time <= y.entry.time <= z.entry.time
    requires files == [[x.entry, z.entry], [y.entry]] && out == [x, y, z]
    ensures Merging(files, [[], []], out)
  {
    ThreeDeliveries(x, y, z);
    assert Accounted(files, [[], []], out);
    AccountedEntries(files, [[], []], out);
  }

  lemma TimesAscend(es: seq<Entry>)
    requires |es| == 2 && es[0].time <= es[1].time
    ensures NonDecreasing(es)
  {
  }

  /** File 0 holds times 1 and 3 and then fails, file 1 holds times 1 and 2. The failure cancels the producer of
      file 1, which drops time 2; what comes out is 1, 1, 3 and the error. */
  ghost predicate LosingInput(files: seq<seq<Entry>>, fails: seq<bool>, keep: seq<nat>, out: seq<Delivery>)
  {
    && |files| == 2 && |files[0]| == 2 && |files[1]| == 2
    && files[0][0].time == 1 && files[0][1].time == 3 && files[1][0].time == 1 && files[1][1].time == 2
    && fails == [true, false] && keep == [2, 1]
    && out == [Delivery(files[0][0], 0), Delivery(files[1][0], 1), Delivery(files[0][1], 0)]
  }

  lemma LosingInputMerges(files: seq<seq<Entry>>, fails: seq<bool>, keep: seq<nat>, out: seq<Delivery>)
    requires LosingInput(files, fails, keep, out)
    ensures CutsAllowed(files, fails, keep) && Merging(Kept(files, keep), [[], []], out)
  {
    assert fails[0] && keep[0] == |files[0]|;
    var kept := Kept(files, keep);
    assert kept[0] == [files[0][0], files[0][1]] && kept[1] == [files[1][0]];
    ThreeMerged(kept, out[0], out[1], out[2], out);
  }

  /** That is a possible outcome, and it begins no merge of the two files. */
  lemma FailureLosesAnEntry(files: seq<seq<Entry>>, fails: seq<bool>, keep: seq<nat>, out: seq<Delivery>)
    requires LosingInput(files, fails, keep, out)
    ensures CutsAllowed(files, fails, keep) && Outcome(files, fails, keep, out, true) && !BeginsMerge(files, out)
  {
    LosingInputMerges(files, fails, keep, out);
    KeptPrefix(files, keep, [[], []], out);
    assert fails[0] in fails;
    TimesAscend(files[0]);
    TimesAscend(files[1]);
    CutMergeIsMergeIff(files, keep, out);
    assert files[1][1].time < out[2].entry.time;
  }
}

/**
 The k-way merge of log streams: a binary heap of streams ordered by the entry each would deliver
 next, with container/heap's sift loops written out. Popping an entry changes the key of the root
 while it sits in the heap; popping and pushing that stream then repairs the heap.
 */
module MergedStreams {
  import opened LogEntries
  import opened MergeSpec

  /** What the merge sees of a stream: the entries it has yet to deliver, and whether it ends with an
      error other than the end of the file. */
  class LogStream {
    const file: nat
    const fails: bool
    var rest: seq<Entry>

    constructor (file: nat, entries: seq<Entry>, fails: bool)
      ensures this.file == file && this.rest == entries && this.fails == fails
    {
      this.file, this.rest, this.fails := file, entries, fails;
    }

    method Peek() returns (e: Entry, ok: bool)
      ensures ok == (rest != [])
      ensures e == if ok then rest[0] else ZERO_ENTRY
    {
      if rest == [] {
        return ZERO_ENTRY, false;
      }
      return rest[0], true;
    }

    method Pop() returns (e: Entry, ok: bool)
      modifies this
      ensures ok == (old(rest) != [])
      ensures e == if ok then old(rest)[0] else ZERO_ENTRY
      ensures rest == if ok then old(rest)[1..] else []
    {
      e, ok := Peek();
      if ok {
        rest := rest[1..];
      }
    }
  }

  /** The heap order: an exhausted stream comes before every stream that still has an entry. */
  predicate Less(a: LogStream, b: LogStream)
    reads a, b
  {
    if a.rest != [] && b.rest != [] then a.rest[0].time < b.rest[0].time
    else a.rest == [] && b.rest != []
  }

  function Parent(i: nat): nat
  {
    if i == 0 then 0 else (i - 1) / 2
  }

  /** Below `n`, every stream whose parent is at `lo` or later is not before its parent, except
      possibly the children of `hole`. */
  ghost predicate HeapExcept(l: seq<LogStream>, lo: nat, n: nat, hole: int)
    reads l
  {
    n <= |l| && forall c :: 0 < c < n && lo <= Parent(c) != hole ==> !Less(l[c], l[Parent(c)])
  }

  ghost predicate HeapFrom(l: seq<LogStream>, lo: nat, n: nat)
    reads l
  {
    HeapExcept(l, lo, n, -1)
  }

  ghost predicate IsHeap(l: seq<LogStream>)
    reads l
  {
    HeapFrom(l, 0, |l|)
  }

  lemma {:induction false} RootComesFirst(l: seq<LogStream>, i: nat)
    requires IsHeap(l) && i < |l|
    ensures !Less(l[i], l[0])
  {
    if i > 0 {
      RootComesFirst(l, Parent(i));
    }
  }

  /** A heap but for the stream at `j`, which may come before its parent. */
  ghost predicate SiftingUp(l: seq<LogStream>, j: nat)
    requires j < |l|
    reads l
  {
    && (forall c :: 0 < c < |l| && c != j ==> !Less(l[c], l[Parent(c)]))
    && (forall c :: 0 < c < |l| && Parent(c) == j ==> !Less(l[c], l[Parent(j)]))
  }

  function Swapped(l: seq<LogStream>, i: nat, j: nat): (l': seq<LogStream>)
    requires i < |l| && j < |l|
    ensures |l'| == |l|
  {
    l[i := l[j]][j := l[i]]
  }

  lemma SiftUpStep(l: seq<LogStream>, j: nat)
    requires 0 < j < |l| && SiftingUp(l, j) && Less(l[j], l[Parent(j)])
    ensures SiftingUp(Swapped(l, Parent(j), j), Parent(j))
  {
    var i, l' := Parent(j), Swapped(l, Parent(j), j);
    forall c | 0 < c < |l| && c != i
      ensures !Less(l'[c], l'[Parent(c)])
    {
      if c != j && Parent(c) == i {
        assert !Less(l[c], l[i]);
      }
    }
    forall c | 0 < c < |l| && Parent(c) == i
      ensures !Less(l'[c], l'[Parent(i)])
    {
      assert i > 0 ==> !Less(l[i], l[Parent(i)]);
      assert c != j ==> !Less(l[c], l[i]);
    }
  }

  /** A heap but for the stream at `i`, which may come after its children. */
  ghost predicate SiftingDown(l: seq<LogStream>, i0: nat, n: nat, i: nat)
    reads l
  {
    && i0 <= i
    && HeapExcept(l, i0, n, i)
    && (forall c :: 0 < c < n && Parent(c) == i > i0 ==> !Less(l[c], l[Parent(i)]))
  }

  /** The child of `i` that down compares with: the left one unless the right one is before it. */
  function FirstChild(l: seq<LogStream>, n: nat, i: nat): (j: nat)
    requires 2 * i + 1 < n <= |l|
    reads l
    ensures i < j < n
  {
    var j1 := 2 * i + 1;
    var j2 := j1 + 1;
    if j2 < n && Less(l[j2], l[j1]) then j2 else j1
  }

  lemma FirstChildIsFirst(l: seq<LogStream>, n: nat, i: nat)
    requires 2 * i + 1 < n <= |l|
    ensures var j := FirstChild(l, n, i);
            Parent(j) == i && forall c :: 0 < c < n && Parent(c) == i ==> !Less(l[c], l[j])
  {
    assert forall c :: 0 < c < n && Parent(c) == i ==> c == 2 * i + 1 || c == 2 * i + 2;
  }

  lemma SiftDownStarts(l: seq<LogStream>, i0: nat, n: nat)
    requires HeapFrom(l, i0 + 1, n)
    ensures SiftingDown(l, i0, n, i0)
  {
  }

  lemma SiftDownEnds(l: seq<LogStream>, i0: nat, n: nat, i: nat)
    requires SiftingDown(l, i0, n, i)
    requires 2 * i + 1 < n ==> !Less(l[FirstChild(l, n, i)], l[i])
    ensures HeapFrom(l, i0, n)
  {
    if 2 * i + 1 < n {
      FirstChildIsFirst(l, n, i);
    }
  }

  lemma SiftDownStep(l: seq<LogStream>, i0: nat, n: nat, i: nat, j: nat)
    requires SiftingDown(l, i0, n, i) && 2 * i + 1 < n
    requires j == FirstChild(l, n, i) && Less(l[j], l[i])
    ensures SiftingDown(Swapped(l, i, j), i0, n, j)
  {
    var l' := Swapped(l, i, j);
    FirstChildIsFirst(l, n, i);
    forall c | 0 < c < n && i0 <= Parent(c) != j
      ensures !Less(l'[c], l'[Parent(c)])
    {
      if c == i {
        assert !Less(l[j], l[Parent(i)]);
      }
    }
  }

  /** No two streams read the same file. */
  ghost predicate Distinct(streams: multiset<LogStream>)
  {
    && (forall s :: s in streams ==> streams[s] == 1)
    && (forall s, t :: s in streams && t in streams && s != t ==> s.file != t.file)
  }

  lemma RootIsAlone(l: seq<LogStream>)
    requires l != [] && Distinct(multiset(l))
    ensures forall i :: 0 < i < |l| ==> l[i] != l[0]
  {
    forall i | 0 < i < |l|
      ensures l[i] != l[0]
    {
      assert l == [l[0]] + l[1..];
      assert multiset(l) == multiset{l[0]} + multiset(l[1..]);
      assert l[1..][i - 1] in multiset(l[1..]);
      assert l[0] in multiset(l) && multiset(l)[l[0]] == 1;
    }
  }

  /** Advancing the root alone can break the heap only between the root and its children. */
  twostate lemma RootAdvanced(l: seq<LogStream>)
    requires l != [] && Distinct(multiset(l)) && old(IsHeap(l))
    requires forall t :: t in l && t != l[0] ==> t.rest == old(t.rest)
    ensures HeapFrom(l, 1, |l|)
  {
    RootIsAlone(l);
    forall c | 0 < c < |l| && 1 <= Parent(c)
      ensures !Less(l[c], l[Parent(c)])
    {
      assert old(!Less(l[c], l[Parent(c)]));
    }
  }

  lemma Members(l: seq<LogStream>, l': seq<LogStream>)
    ensures forall s :: s in l <==> s in multiset(l)
    ensures forall s :: s in l' <==> s in multiset(l')
  {
  }

  /** At most the stream that finished has left. */
  lemma StillThere(before: seq<LogStream>, after: seq<LogStream>, root: LogStream, finished: bool)
    requires multiset(after) == if finished then multiset(before) - multiset{root} else multiset(before)
    ensures forall s :: s in after ==> s in before
    ensures forall s :: s in before ==> s in after || (finished && s == root)
  {
    Members(before, after);
  }

  lemma ExhaustedRootIsFirst(l: seq<LogStream>)
    requires l != [] && l[0].rest == [] && HeapFrom(l, 1, |l|)
    ensures IsHeap(l)
  {
  }

  class MergedStream {
    var l: seq<LogStream>

    /** Streams come from different files, never go back in time, and still hold an entry; only the
        root may have run into an error. */
    ghost predicate Streams()
      reads this, l
    {
      && Distinct(multiset(l))
      && (forall s :: s in multiset(l) ==> NonDecreasing(s.rest))
      && (forall s :: s in multiset(l) && s.rest == [] ==> s == l[0] && s.fails)
    }

    ghost predicate Valid()
      reads this, l
    {
      Streams() && IsHeap(l)
    }

    method Swap(i: nat, j: nat)
      requires i < |l| && j < |l|
      modifies this
      ensures l == Swapped(old(l), i, j) && multiset(l) == multiset(old(l))
    {
      l := l[i := l[j]][j := l[i]];
    }

    /** Swapping a stream with its parent moves the place where the heap may be broken up there. */
    method SwapUp(j: nat)
      requires 0 < j < |l| && SiftingUp(l, j) && Less(l[j], l[Parent(j)])
      modifies this
      ensures Parent(j) < |l| && SiftingUp(l, Parent(j)) && multiset(l) == multiset(old(l))
    {
      SiftUpStep(l, j);
      Swap(Parent(j), j);
    }

    /** Swapping a stream with its first child moves the place where the heap may be broken down there. */
    method SwapDown(i0: nat, n: nat, i: nat, j: nat)
      requires SiftingDown(l, i0, n, i) && 2 * i + 1 < n && j == FirstChild(l, n, i) && Less(l[j], l[i])
      modifies this
      ensures SiftingDown(l, i0, n, j) && |l| == |old(l)| && multiset(l) == multiset(old(l))
      ensures forall k :: n <= k < |l| ==> l[k] == old(l)[k]
    {
      SiftDownStep(l, i0, n, i, j);
      Swap(i, j);
    }

    method Up(last: nat)
      requires last < |l| && SiftingUp(l, last)
      modifies this
      ensures IsHeap(l)
      ensures multiset(l) == multiset(old(l))
    {
      var j: nat := last;
      while true
        invariant j < |l| && SiftingUp(l, j)
        invariant multiset(l) == multiset(old(l))
        decreases j
      {
        var i := Parent(j);
        if i == j || !Less(l[j], l[i]) {
          break;
        }
        SwapUp(j);
        j := i;
      }
    }

    method Down(i0: nat, n: nat)
      requires n <= |l| && HeapFrom(l, i0 + 1, n)
      modifies this
      ensures n <= |l| == |old(l)| && HeapFrom(l, i0, n)
      ensures multiset(l) == multiset(old(l))
      ensures forall k :: n <= k < |l| ==> l[k] == old(l)[k]
    {
      var i: nat := i0;
      SiftDownStarts(l, i0, n);
      while true
        invariant n <= |l| == |old(l)| && SiftingDown(l, i0, n, i)
        invariant multiset(l) == multiset(old(l))
        invariant forall k :: n <= k < |l| ==> l[k] == old(l)[k]
        decreases n - i
      {
        if 2 * i + 1 >= n {
          SiftDownEnds(l, i0, n, i);
          break;
        }
        var j := FirstChild(l, n, i);
        if !Less(l[j], l[i]) {
          SiftDownEnds(l, i0, n, i);
          break;
        }
        SwapDown(i0, n, i, j);
        i := j;
      }
    }

    /** heap.Init */
    constructor (streams: seq<LogStream>)
      requires Distinct(multiset(streams))
      requires forall s :: s in multiset(streams) ==> s.rest != [] && NonDecreasing(s.rest)
      ensures Valid() && multiset(l) == multiset(streams)
    {
      l := streams;
      new;
      var n := |l|;
      var i := n / 2 - 1;
      while i >= 0
        invariant -1 <= i < n && |l| == n
        invariant HeapFrom(l, i + 1, n)
        invariant multiset(l) == multiset(streams)
      {
        Down(i, n);
        i := i - 1;
      }
    }

    method HeapPush(s: LogStream)
      requires IsHeap(l)
      modifies this
      ensures IsHeap(l) && multiset(l) == multiset(old(l)) + multiset{s}
    {
      l := l + [s];
      Up(|l| - 1);
    }

    /** heap.Pop works whatever the key of the root has become. */
    method HeapPop() returns (s: LogStream)
      requires l != [] && HeapFrom(l, 1, |l|)
      modifies this
      ensures IsHeap(l) && s == old(l)[0]
      ensures multiset(l) + multiset{s} == multiset(old(l))
    {
      var n := |l| - 1;
      Swap(0, n);
      Down(0, n);
      s := l[n];
      assert l == l[..n] + [s];
      l := l[..n];
    }

    method Peek() returns (e: Entry, ok: bool)
      ensures ok == (l != [] && l[0].rest != [])
      ensures e == if ok then l[0].rest[0] else ZERO_ENTRY
    {
      if |l| == 0 {
        return ZERO_ENTRY, false;
      }
      e, ok := l[0].Peek();
    }

    /** Puts the root back in order after it advanced; it leaves the merge at the end of its file and
        stays at the root after an error. */
    method Reposition() returns (ok: bool)
      requires l != [] && HeapFrom(l, 1, |l|) && Distinct(multiset(l))
      requires forall s :: s in multiset(l) ==> NonDecreasing(s.rest)
      requires forall s :: s in multiset(l) && s.rest == [] ==> s == l[0]
      modifies this
      ensures Valid()
      ensures ok == (old(l[0].rest != []) || !old(l)[0].fails)
      ensures !ok ==> l == old(l)
      ensures multiset(l) == if ok && old(l[0].rest == []) then multiset(old(l)) - multiset{old(l)[0]}
                             else multiset(old(l))
    {
      var s := l[0];
      var _, stillOk := s.Peek();
      ok := true;
      if stillOk {
        var popped := HeapPop();
        HeapPush(popped);
      } else if s.fails {
        ExhaustedRootIsFirst(l);
        return false;
      } else {
        var _ := HeapPop();
        assert multiset(l) == multiset(old(l)) - multiset{s};
      }
    }

    /** Delivers the root's entry and advances that stream alone. */
    method Pop() returns (e: Entry, ok: bool)
      requires Valid()
      modifies this, l
      ensures Valid()
      ensures old(l == [] || l[0].rest == []) ==>
                !ok && l == old(l) && forall t :: t in old(l) ==> t.rest == old(t.rest)
      ensures old(l != [] && l[0].rest != []) ==>
                var s := old(l)[0];
                && s.rest == old(s.rest)[1..]
                && (forall t :: t in old(l) && t != s ==> t.rest == old(t.rest))
                && ok == (s.rest != [] || !s.fails)
                && (ok ==> e == old(s.rest)[0])
                && multiset(l) == (if s.rest == [] && !s.fails then multiset(old(l)) - multiset{s}
                                   else multiset(old(l)))
                && (!ok ==> l == old(l))
    {
      e, ok := Peek();
      if !ok {
        return ZERO_ENTRY, false;
      }
      var s := l[0];
      var _, _ := s.Pop();
      RootAdvanced(l);
      ok := Reposition();
      if !ok {
        e := ZERO_ENTRY;
      }
    }

    lemma RootIsEarliest()
      requires Valid() && l != [] && l[0].rest != []
      ensures forall s :: s in l ==> s.rest != [] && l[0].rest[0].time <= s.rest[0].time
    {
      forall s | s in l
        ensures s.rest != [] && l[0].rest[0].time <= s.rest[0].time
      {
        var i :| 0 <= i < |l| && l[i] == s;
        RootComesFirst(l, i);
      }
    }

    /** Peek and pop together: the earliest entry left comes out, with the file it came from. */
    method TakeEarliest() returns (d: Delivery)
      requires Valid() && l != [] && l[0].rest != []
      modifies this, l
      ensures Valid()
      ensures d == Delivery(old(l[0].rest)[0], old(l)[0].file)
      ensures forall s :: s in old(l) ==> old(s.rest) != [] && d.entry.time <= old(s.rest)[0].time
      ensures forall s :: s in old(l) ==> s.rest == if s == old(l)[0] then old(s.rest)[1..] else old(s.rest)
      ensures forall s :: s in l ==> s in old(l)
      ensures forall s :: s in old(l) ==> s in l || (s.rest == [] && !s.fails)
    {
      RootIsEarliest();
      var e, _ := Peek();
      var root := l[0];
      d := Delivery(e, root.file);
      var _, _ := Pop();
      StillThere(old(l), l, root, root.rest == [] && !root.fails);
    }
  }
}

/** The reading loop of the pipeline over a merged stream. */
module MergeReading {
  import opened Common
  import opened LogEntries
  import opened MergeSpec
  import opened MergedStreams

  ghost function Rests(all: seq<LogStream>): (now: seq<seq<Entry>>)
    reads all
    ensures |now| == |all|
  {
    seq(|all|, f requires 0 <= f < |all| reads all => all[f].rest)
  }

  /** Files are numbered as they were given, and streams leave the merge only when finished. */
  ghost predicate Tracked(all: seq<LogStream>, l: seq<LogStream>)
    reads all
  {
    && (forall f :: 0 <= f < |all| ==> all[f].file == f)
    && (forall s :: s in l ==> s.file < |all| && s == all[s.file])
    && (forall f :: 0 <= f < |all| ==> all[f] in l || (all[f].rest == [] && !all[f].fails))
  }

  method TakeTracked(m: MergedStream, ghost all: seq<LogStream>) returns (d: Delivery)
    requires m.Valid() && Tracked(all, m.l) && m.l != [] && m.l[0].rest != []
    modifies m, all
    ensures m.Valid() && Tracked(all, m.l)
    ensures var before := old(Rests(all));
            && d.file < |all| && before[d.file] != [] && d.entry == before[d.file][0]
            && NonDecreasing(before[d.file])
            && (forall f :: 0 <= f < |all| && before[f] != [] ==> d.entry.time <= before[f][0].time)
            && Rests(all) == before[d.file := before[d.file][1..]]
  {
    ghost var l0, before, root := m.l, Rests(all), m.l[0];
    EarliestOfAll(m, all);
    d := m.TakeEarliest();
    forall f | 0 <= f < |all|
      ensures all[f].rest == if all[f] == root then before[f][1..] else before[f]
    {
      if all[f] in l0 {
      }
    }
    StillTracked(all, l0, before, m.l, root);
  }

  /** The root's next entry is the earliest of all files. */
  lemma EarliestOfAll(m: MergedStream, all: seq<LogStream>)
    requires m.Valid() && Tracked(all, m.l) && m.l != [] && m.l[0].rest != []
    ensures forall i :: 0 <= i < |m.l| ==> m.l[i] in all
    ensures m.l[0].file < |all| && all[m.l[0].file] == m.l[0] && NonDecreasing(m.l[0].rest)
    ensures forall f :: 0 <= f < |all| && all[f].rest != [] ==> m.l[0].rest[0].time <= all[f].rest[0].time
  {
    assert m.l[0] in multiset(m.l);
    forall i | 0 <= i < |m.l|
      ensures m.l[i] in all
    {
      assert m.l[i] == all[m.l[i].file];
    }
    m.RootIsEarliest();
  }

  /** Once only the root has advanced and at most it has left, the rest is still accounted for. */
  lemma StillTracked(all: seq<LogStream>, l0: seq<LogStream>, before: seq<seq<Entry>>, l: seq<LogStream>, root: LogStream)
    requires |before| == |all| && root in l0 && (forall f :: 0 <= f < |all| ==> all[f].file == f)
    requires forall s :: s in l0 ==> s.file < |all| && s == all[s.file]
    requires forall f :: 0 <= f < |all| ==> all[f] in l0 || (before[f] == [] && !all[f].fails)
    requires before[root.file] != []
    requires forall f :: 0 <= f < |all| ==> all[f].rest == if all[f] == root then before[f][1..] else before[f]
    requires forall s :: s in l ==> s in l0
    requires forall s :: s in l0 ==> s in l || (s.rest == [] && !s.fails)
    ensures Tracked(all, l) && Rests(all) == before[root.file := before[root.file][1..]]
  {
  }

  /** Hands on the entry at the root and pops it; `left` is what the files still hold. */
  method ReadOne(m: MergedStream, out: seq<Delivery>, ghost all: seq<LogStream>,
                 ghost initial: seq<seq<Entry>>, ghost left: seq<seq<Entry>>)
    returns (out': seq<Delivery>, ghost left': seq<seq<Entry>>)
    requires m.Valid() && Tracked(all, m.l) && m.l != [] && m.l[0].rest != []
    requires left == Rests(all) && Merging(initial, left, out)
    modifies m, all
    ensures m.Valid() && Tracked(all, m.l)
    ensures left' == Rests(all) && Merging(initial, left', out') && |Flatten(left')| < |Flatten(left)|
  {
    var d := TakeTracked(m, all);
    FlattenAdvance(left, d.file);
    MergingSnoc(initial, left, out, d);
    out', left' := out + [d], left[d.file := left[d.file][1..]];
  }

  /** Peeking changes nothing. */
  method PeekTracked(m: MergedStream, ghost all: seq<LogStream>) returns (ok: bool)
    requires m.Valid() && Tracked(all, m.l)
    ensures m.Valid() && Tracked(all, m.l) && Rests(all) == old(Rests(all))
    ensures ok == (m.l != [] && m.l[0].rest != [])
  {
    var e;
    e, ok := m.Peek();
  }

  /** One round of the reading loop, up to the next peek. */
  method Round(m: MergedStream, out: seq<Delivery>, ghost all: seq<LogStream>,
               ghost initial: seq<seq<Entry>>, ghost left: seq<seq<Entry>>)
    returns (out': seq<Delivery>, ok: bool, ghost left': seq<seq<Entry>>)
    requires m.Valid() && Tracked(all, m.l) && m.l != [] && m.l[0].rest != []
    requires left == Rests(all) && Merging(initial, left, out)
    modifies m, all
    ensures m.Valid() && Tracked(all, m.l) && ok == (m.l != [] && m.l[0].rest != [])
    ensures left' == Rests(all) && Merging(initial, left', out') && |Flatten(left')| < |Flatten(left)|
  {
    out', left' := ReadOne(m, out, all, initial, left);
    ok := PeekTracked(m, all);
  }

  /** The reading loop: peek, hand on the entry with the file it came from, pop, until there is
      nothing to peek at. */
  method Drain(m: MergedStream, ghost all: seq<LogStream>) returns (out: seq<Delivery>, ghost left: seq<seq<Entry>>)
    requires m.Valid() && Tracked(all, m.l)
    modifies m, all
    ensures m.Valid() && Tracked(all, m.l) && (m.l != [] ==> m.l[0].rest == [])
    ensures left == Rests(all) && Merging(old(Rests(all)), left, out)
  {
    ghost var initial := Rests(all);
    MergeStarts(initial);
    out, left := [], initial;
    var ok := PeekTracked(m, all);
    while ok
      invariant m.Valid() && Tracked(all, m.l)
      invariant left == Rests(all) && Merging(initial, left, out)
      invariant ok == (m.l != [] && m.l[0].rest != [])
      decreases |Flatten(left)|
    {
      out, ok, left := Round(m, out, all, initial, left);
    }
  }

  /** The merge stops either with no stream left or with the stream that failed at the root. */
  lemma DrainedOrFailed(m: MergedStream, all: seq<LogStream>)
    requires m.Valid() && Tracked(all, m.l) && (m.l != [] ==> m.l[0].rest == [])
    ensures m.l != [] ==> m.l[0].fails && m.l[0].file < |all| && all[m.l[0].file] == m.l[0]
    ensures m.l == [] ==> forall f :: 0 <= f < |all| ==> Rests(all)[f] == [] && !all[f].fails
  {
    if m.l != [] {
      assert m.l[0] in multiset(m.l);
    }
  }

  /** Every file's entries come out in their own order and the output is sorted by time. Without an
      error every entry of every file is delivered exactly once; with one, the output is the beginning
      of such a merge, and the file that failed was delivered whole. */
  method ReadAll(m: MergedStream, ghost all: seq<LogStream>) returns (out: seq<Delivery>, failed: bool)
    requires m.Valid() && Tracked(all, m.l)
    modifies m, all
    ensures Merging(old(Rests(all)), Rests(all), out)
    ensures failed ==> exists f :: 0 <= f < |all| && all[f].fails && all[f].rest == []
    ensures !failed ==> forall f :: 0 <= f < |all| ==> !all[f].fails && all[f].rest == []
    ensures !failed ==> IsMerge(old(Rests(all)), out)
  {
    ghost var left;
    out, left := Drain(m, all);
    DrainedOrFailed(m, all);
    failed := m.l != [] && m.l[0].fails;
    if !failed {
      MergeEnds(old(Rests(all)), left, out);
    }
  }
}
