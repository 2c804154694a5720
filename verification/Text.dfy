/** Splitting, joining and ordering strings as Go's strings and sort packages do. */
module Text {
  import opened Common

  /** strings.Split with a separator of one character */
  function Split(s: string, c: char): (parts: seq<string>)
    ensures parts != []
    ensures forall i :: 0 <= i < |parts| ==> c !in parts[i]
  {
    if s == "" then [""]
    else
      var rest := Split(s[1..], c);
      if s[0] == c then [""] + rest else [[s[0]] + rest[0]] + rest[1..]
  }

  function Join(parts: seq<string>, c: char): string
  {
    if parts == [] then ""
    else if |parts| == 1 then parts[0]
    else parts[0] + [c] + Join(parts[1..], c)
  }

  lemma {:induction false} SplitFree(s: string, c: char, d: char)
    requires d !in s
    ensures forall i :: 0 <= i < |Split(s, c)| ==> d !in Split(s, c)[i]
  {
    if s != "" {
      assert d !in s[1..];
      SplitFree(s[1..], c, d);
    }
  }

  lemma {:induction false} SplitWhole(p: string, c: char)
    requires c !in p
    ensures Split(p, c) == [p]
  {
    if p != "" {
      assert c !in p[1..];
      SplitWhole(p[1..], c);
      assert [p[0]] + p[1..] == p;
    }
  }

  lemma {:induction false} SplitFirst(p: string, c: char, rest: string)
    requires c !in p
    ensures Split(p + [c] + rest, c) == [p] + Split(rest, c)
  {
    var s := p + [c] + rest;
    if p == "" {
      assert s[1..] == rest;
    } else {
      assert c !in p[1..];
      SplitFirst(p[1..], c, rest);
      assert s[1..] == p[1..] + [c] + rest;
      assert [p[0]] + p[1..] == p;
    }
  }

  /** Splitting undoes joining parts that are free of the separator. */
  lemma {:induction false} SplitJoin(parts: seq<string>, c: char)
    requires parts != [] && forall i :: 0 <= i < |parts| ==> c !in parts[i]
    ensures Split(Join(parts, c), c) == parts
  {
    if |parts| == 1 {
      SplitWhole(parts[0], c);
    } else {
      SplitJoin(parts[1..], c);
      SplitFirst(parts[0], c, Join(parts[1..], c));
      assert parts == [parts[0]] + parts[1..];
    }
  }

  lemma {:induction false} JoinContains(parts: seq<string>, c: char, d: char)
    requires d in Join(parts, c)
    ensures d == c || exists i :: 0 <= i < |parts| && d in parts[i]
  {
    if |parts| > 1 && d !in parts[0] && d != c {
      JoinContains(parts[1..], c, d);
      var i :| 0 <= i < |parts[1..]| && d in parts[1..][i];
      assert parts[i + 1] == parts[1..][i];
    }
  }

  /** strings.SplitN(s, c, 2): the text before and after the first separator, if there is one. */
  function Cut(s: string, c: char): (r: Option<(string, string)>)
    ensures r.Some? ==> s == r.value.0 + [c] + r.value.1 && c !in r.value.0
    ensures r.None? ==> c !in s
  {
    if s == "" then None
    else if s[0] == c then Some(("", s[1..]))
    else
      match Cut(s[1..], c)
      case None => None
      case Some((a, b)) => Some(([s[0]] + a, b))
  }

  lemma {:induction false} CutFirst(a: string, c: char, b: string)
    requires c !in a
    ensures Cut(a + [c] + b, c) == Some((a, b))
  {
    var s := a + [c] + b;
    if a == "" {
      assert s[1..] == b;
    } else {
      assert c !in a[1..];
      assert s[1..] == a[1..] + [c] + b;
      CutFirst(a[1..], c, b);
      assert [a[0]] + a[1..] == a;
    }
  }

  // ---------- Sorting ----------

  predicate Less(a: string, b: string)
  {
    b != "" && (a == "" || a[0] < b[0] || (a[0] == b[0] && Less(a[1..], b[1..])))
  }

  lemma {:induction false} LessTotal(a: string, b: string)
    ensures a == b || Less(a, b) || Less(b, a)
  {
    if a != "" && b != "" && a[0] == b[0] {
      LessTotal(a[1..], b[1..]);
      assert a == [a[0]] + a[1..] && b == [b[0]] + b[1..];
    }
  }

  lemma {:induction false} LessTransitive(a: string, b: string, c: string)
    requires Less(a, b) && Less(b, c)
    ensures Less(a, c)
  {
    if a != "" && a[0] == b[0] == c[0] {
      LessTransitive(a[1..], b[1..], c[1..]);
    }
  }

  lemma {:induction false} LessIrreflexive(a: string)
    ensures !Less(a, a)
  {
    if a != "" {
      LessIrreflexive(a[1..]);
    }
  }

  /** The strings first differ at `i`, where `a` is smaller. */
  predicate SmallerAt(a: string, b: string, i: nat)
  {
    i < |a| && i < |b| && a[..i] == b[..i] && a[i] < b[i]
  }

  lemma SmallerInTail(a: string, b: string, i: nat)
    requires a != "" && b != "" && a[0] == b[0]
    ensures SmallerAt(a, b, i + 1) <==> SmallerAt(a[1..], b[1..], i)
    ensures !SmallerAt(a, b, 0)
  {
    if i + 1 < |a| && i + 1 < |b| {
      assert a[..i + 1] == [a[0]] + a[1..][..i] && b[..i + 1] == [b[0]] + b[1..][..i];
      assert a[..i + 1][1..] == a[1..][..i] && b[..i + 1][1..] == b[1..][..i];
    }
  }

  lemma PrefixInTail(a: string, b: string)
    requires a != "" && b != "" && a[0] == b[0]
    ensures a < b <==> a[1..] < b[1..]
  {
    assert a == [a[0]] + a[1..] && b == [b[0]] + b[1..];
    if a < b {
      assert b[1..][..|a| - 1] == b[..|a|][1..];
    }
  }

  /** One string comes before another exactly if it is a proper prefix of it, or smaller where they first differ. */
  lemma {:induction false} LessIsLexicographic(a: string, b: string)
    ensures Less(a, b) <==> a < b || exists i: nat :: SmallerAt(a, b, i)
  {
    if a != "" && b != "" && a[0] == b[0] {
      LessIsLexicographic(a[1..], b[1..]);
      PrefixInTail(a, b);
      if exists i: nat :: SmallerAt(a, b, i) {
        var i: nat :| SmallerAt(a, b, i);
        SmallerInTail(a, b, if i == 0 then 0 else i - 1);
      }
      if exists i: nat :: SmallerAt(a[1..], b[1..], i) {
        var i: nat :| SmallerAt(a[1..], b[1..], i);
        SmallerInTail(a, b, i);
      }
    } else if a != "" && b != "" {
      assert a[0] < b[0] ==> SmallerAt(a, b, 0);
      if exists i: nat :: SmallerAt(a, b, i) {
        var i: nat :| SmallerAt(a, b, i);
        assert i > 0 ==> a[..i][0] == b[..i][0];
      }
    }
  }

  ghost predicate StrictlySorted(s: seq<string>)
  {
    forall i, j :: 0 <= i < j < |s| ==> Less(s[i], s[j])
  }

  predicate Distinct(s: seq<string>)
  {
    forall i, j :: 0 <= i < j < |s| ==> s[i] != s[j]
  }

  function Insert(x: string, s: seq<string>): seq<string>
  {
    if s == [] then [x]
    else if Less(s[0], x) then [s[0]] + Insert(x, s[1..])
    else [x] + s
  }

  /** sort.Strings */
  function Sort(s: seq<string>): seq<string>
  {
    if s == [] then [] else Insert(s[0], Sort(s[1..]))
  }

  lemma {:induction false} InsertKeepsSorted(x: string, s: seq<string>)
    requires StrictlySorted(s) && x !in s
    ensures StrictlySorted(Insert(x, s))
    ensures forall y :: y in Insert(x, s) <==> y == x || y in s
  {
    if s != [] {
      assert forall i :: 0 <= i < |s| - 1 ==> s[1..][i] == s[i + 1];
      assert s == [s[0]] + s[1..];
      if Less(s[0], x) {
        InsertKeepsSorted(x, s[1..]);
        var r := Insert(x, s[1..]);
        forall i | 0 <= i < |r|
          ensures Less(s[0], r[i])
        {
          assert r[i] in r;
        }
      } else {
        LessTotal(s[0], x);
        forall i | 0 < i < |s|
          ensures Less(x, s[i])
        {
          LessTransitive(x, s[0], s[i]);
        }
      }
    }
  }

  lemma {:induction false} SortSorts(s: seq<string>)
    requires Distinct(s)
    ensures StrictlySorted(Sort(s))
    ensures forall y :: y in Sort(s) <==> y in s
  {
    if s != [] {
      SortSorts(s[1..]);
      assert s[0] !in s[1..];
      InsertKeepsSorted(s[0], Sort(s[1..]));
    }
  }

  lemma {:induction false} SortOfSorted(s: seq<string>)
    requires StrictlySorted(s)
    ensures Sort(s) == s && Distinct(s)
  {
    if s != [] {
      assert forall i :: 0 <= i < |s| - 1 ==> s[1..][i] == s[i + 1];
      SortOfSorted(s[1..]);
      if |s| > 1 && Less(s[1], s[0]) {
        LessTransitive(s[0], s[1], s[0]);
        LessIrreflexive(s[0]);
      }
      forall j | 0 < j < |s|
        ensures s[0] != s[j]
      {
        LessIrreflexive(s[0]);
      }
    }
  }
}
