/**
 Normalising Pebble options given on the command line. Whitespace delimits lines, except inside
 brackets, which are copied verbatim. The loop is modelled with its failure to make progress: it spins
 forever at a '[' without a later ']', and at a run of whitespace outside brackets that starts with
 whitespace beyond ASCII.
 */
module PebbleOptions {
  import opened Common

  predicate AsciiSpace(c: char)
  {
    c == ' ' || '\U{0009}' <= c <= '\U{000D}'
  }

  /** unicode.IsSpace */
  predicate IsSpace(c: char)
  {
    || AsciiSpace(c)
    || c == '\U{0085}' || c == '\U{00A0}' || c == '\U{1680}' || '\U{2000}' <= c <= '\U{200A}'
    || c == '\U{2028}' || c == '\U{2029}' || c == '\U{202F}' || c == '\U{205F}' || c == '\U{3000}'
  }

  function TrimLeft(s: string): (r: string)
    ensures |r| <= |s|
  {
    if s != "" && IsSpace(s[0]) then TrimLeft(s[1..]) else s
  }

  function TrimRight(s: string): (r: string)
    ensures |r| <= |s|
  {
    if s != "" && IsSpace(s[|s| - 1]) then TrimRight(s[..|s| - 1]) else s
  }

  lemma {:induction false} TrimLeftIs(s: string)
    ensures var r := TrimLeft(s);
            && r == s[|s| - |r|..] && (r != "" ==> !IsSpace(r[0]))
            && forall i :: 0 <= i < |s| - |r| ==> IsSpace(s[i])
  {
    if s != "" && IsSpace(s[0]) {
      TrimLeftIs(s[1..]);
      var r := TrimLeft(s);
      assert s[1..][|s| - 1 - |r|..] == s[|s| - |r|..];
      forall i | 0 < i < |s| - |r|
        ensures IsSpace(s[i])
      {
        assert s[i] == s[1..][i - 1];
      }
    }
  }

  lemma {:induction false} TrimRightIs(s: string)
    ensures var r := TrimRight(s);
            && r == s[..|r|] && (r != "" ==> !IsSpace(r[|r| - 1]))
            && forall i :: |r| <= i < |s| ==> IsSpace(s[i])
  {
    if s != "" && IsSpace(s[|s| - 1]) {
      TrimRightIs(s[..|s| - 1]);
      var r := TrimRight(s);
      assert s[..|s| - 1][..|r|] == s[..|r|];
    }
  }

  /** strings.TrimSpace */
  function Trim(s: string): (r: string)
    ensures |r| <= |s| && RightTrimmed(r) && (r != "" ==> !IsSpace(r[0]))
  {
    TrimLeftIs(s);
    TrimRightIs(TrimLeft(s));
    TrimRight(TrimLeft(s))
  }

  /** Trimming only leaves characters out. */
  lemma TrimKeepsFree(s: string, c: char)
    requires c !in s
    ensures c !in TrimLeft(s) && c !in Trim(s)
  {
    TrimLeftIs(s);
    TrimRightIs(TrimLeft(s));
  }

  predicate RightTrimmed(s: string)
  {
    s != "" ==> !IsSpace(s[|s| - 1])
  }

  /** The first position at or after `from` that satisfies `p`, or the length of `s`. */
  function Find(s: string, p: char -> bool, from: nat): (i: nat)
    requires from <= |s|
    ensures from <= i <= |s| && (i < |s| ==> p(s[i]))
    ensures forall k :: from <= k < i ==> !p(s[k])
    decreases |s| - from
  {
    if from == |s| || p(s[from]) then from else Find(s, p, from + 1)
  }

  /** What Find finds is unique. */
  lemma FindIs(s: string, p: char -> bool, from: nat, i: nat)
    requires from <= i <= |s| && (i < |s| ==> p(s[i]))
    requires forall k :: from <= k < i ==> !p(s[k])
    ensures Find(s, p, from) == i
  {
  }

  lemma FindInSuffix(s: string, p: char -> bool, i: nat)
    requires i <= |s|
    ensures Find(s, p, i) == i + Find(s[i..], p, 0)
  {
    var j := Find(s[i..], p, 0);
    forall k | i <= k < i + j
      ensures !p(s[k])
    {
      assert s[k] == s[i..][k - i];
    }
    FindIs(s, p, i, i + j);
  }

  predicate Delimits(c: char)
  {
    c == '[' || IsSpace(c)
  }

  predicate Closes(c: char)
  {
    c == ']'
  }

  // ---------- The loop, one iteration at a time ----------

  /** One iteration: what it writes and what remains. An iteration that leaves everything as it was is
      repeated forever. */
  function Iteration(value: string): (string, string)
  {
    IterationAt(value, Find(value, Delimits, 0))
  }

  /** The iteration, given the first delimiter. */
  function IterationAt(value: string, i: nat): (string, string)
    requires i <= |value|
  {
    if i == |value| then (value, "")
    else if value[i] == '[' then
      var j := Find(value, Closes, i);
      if j == |value| then (value[..i], value[i..])  // the index of a missing bracket is -1
      else (value[..j + 1], value[j + 1..])
    else if AsciiSpace(value[i]) then (value[..i] + "\n", Trim(value[i + 1..]))
    else ("", value)                                  // no case applies
  }

  /** The iteration does not meet a bracket that stays open or whitespace it does not know. */
  predicate Progresses(value: string)
  {
    var i := Find(value, Delimits, 0);
    i < |value| ==> if value[i] == '[' then Find(value, Closes, i) < |value| else AsciiSpace(value[i])
  }

  /** The buffer and the remaining value after `n` iterations. */
  function Run(value: string, n: nat): (string, string)
    decreases n
  {
    if n == 0 || value == "" then ("", value)
    else
      var (out, rest) := Iteration(value);
      var (out', rest') := Run(rest, n - 1);
      (out + out', rest')
  }

  // ---------- What the loop computes ----------

  /** The normal form, or None if the loop does not end: brackets verbatim, every other run of
      whitespace one newline. */
  function Norm(v: string): Option<string>
    decreases |v|
  {
    if v == "" then Some("")
    else if v[0] == '[' then
      var j := Find(v, Closes, 0);
      if j == |v| then None else Prepend(v[..j + 1], Norm(v[j + 1..]))
    else if AsciiSpace(v[0]) then Prepend("\n", Norm(TrimLeft(v[1..])))
    else if IsSpace(v[0]) then None
    else Prepend(v[..1], Norm(v[1..]))
  }

  function Prepend(prefix: string, s: Option<string>): Option<string>
  {
    if s.None? then None else Some(prefix + s.value)
  }

  lemma PrependTwice(a: string, b: string, s: Option<string>)
    ensures Prepend(a, Prepend(b, s)) == Prepend(a + b, s)
    ensures Prepend("", s) == s
  {
    if s.Some? {
      assert a + (b + s.value) == (a + b) + s.value;
      assert "" + s.value == s.value;
    }
  }

  /** Plain text in front is copied. */
  lemma {:induction false} NormPlain(v: string, i: nat)
    requires i <= |v| && forall k :: 0 <= k < i ==> !Delimits(v[k])
    ensures Norm(v) == Prepend(v[..i], Norm(v[i..]))
  {
    if i == 0 {
      assert v[i..] == v;
      PrependTwice("", "", Norm(v));
    } else {
      NormPlain(v[1..], i - 1);
      assert v[1..][i - 1..] == v[i..];
      assert v[..1] + v[1..][..i - 1] == v[..i];
      PrependTwice(v[..1], v[1..][..i - 1], Norm(v[i..]));
    }
  }

  lemma TrimSuffix(s: string)
    requires RightTrimmed(s)
    ensures Trim(s) == TrimLeft(s)
  {
    TrimLeftIs(s);
    assert RightTrimmed(TrimLeft(s));
  }

  lemma Slices(v: string, i: nat, j: nat)
    requires i <= j <= |v|
    ensures v[i..][..j - i] == v[i..j] && v[i..][j - i..] == v[j..]
  {
  }

  lemma NormAtOpenBracket(v: string)
    requires v != "" && v[0] == '[' && Find(v, Closes, 0) == |v|
    ensures Norm(v) == None
  {
  }

  lemma NormAtBracket(v: string, front: string, back: string)
    requires v != "" && v[0] == '[' && Find(v, Closes, 0) < |v|
    requires front == v[..Find(v, Closes, 0) + 1] && back == v[Find(v, Closes, 0) + 1..]
    ensures Norm(v) == Prepend(front, Norm(back))
  {
  }

  lemma NormBracket(v: string, i: nat, j: nat)
    requires i < |v| && v[i] == '[' && j == Find(v, Closes, i)
    ensures Norm(v[i..]) == if j == |v| then None else Prepend(v[i..j + 1], Norm(v[j + 1..]))
  {
    FindInSuffix(v, Closes, i);
    if j == |v| {
      NormAtOpenBracket(v[i..]);
    } else {
      Slices(v, i, j + 1);
      NormAtBracket(v[i..], v[i..j + 1], v[j + 1..]);
    }
  }

  lemma NormSpace(v: string, i: nat)
    requires i < |v| && IsSpace(v[i]) && RightTrimmed(v)
    ensures Norm(v[i..]) == if AsciiSpace(v[i]) then Prepend("\n", Norm(Trim(v[i + 1..]))) else None
  {
    assert v[i..][1..] == v[i + 1..];
    TrimSuffix(v[i + 1..]);
  }

  lemma Peel(nv: Option<string>, a: string, nt: Option<string>, b: string, n2: Option<string>, out: string)
    requires nv == Prepend(a, nt) && nt == Prepend(b, n2) && out == a + b
    ensures nv == Prepend(out, n2)
  {
    PrependTwice(a, b, n2);
  }

  lemma BracketStep(v: string, i: nat, j: nat)
    requires i == Find(v, Delimits, 0) < |v| && v[i] == '[' && j == Find(v, Closes, i)
    ensures Norm(v) == if j == |v| then None else Prepend(v[..j + 1], Norm(v[j + 1..]))
  {
    NormPlain(v, i);
    NormBracket(v, i, j);
    if j < |v| {
      Peel(Norm(v), v[..i], Norm(v[i..]), v[i..j + 1], Norm(v[j + 1..]), v[..j + 1]);
    }
  }

  lemma SpaceStep(v: string, i: nat)
    requires i == Find(v, Delimits, 0) < |v| && v[i] != '[' && RightTrimmed(v)
    ensures Norm(v) == if AsciiSpace(v[i]) then Prepend(v[..i] + "\n", Norm(Trim(v[i + 1..]))) else None
  {
    NormPlain(v, i);
    NormSpace(v, i);
    if AsciiSpace(v[i]) {
      Peel(Norm(v), v[..i], Norm(v[i..]), "\n", Norm(Trim(v[i + 1..])), v[..i] + "\n");
    }
  }

  /** What an iteration does to the normal form: it either peels off its front or cannot go on. */
  ghost predicate Peels(v: string)
  {
    Norm(v) == if Progresses(v) then Prepend(Iteration(v).0, Norm(Iteration(v).1)) else None
  }

  lemma PlainPeels(v: string)
    requires Find(v, Delimits, 0) == |v|
    ensures Peels(v)
  {
    NormPlain(v, |v|);
    assert v[..|v|] == v && v[|v|..] == "";
    assert Iteration(v) == (v, "");
  }

  lemma BracketIteration(v: string, i: nat, j: nat)
    requires i == Find(v, Delimits, 0) < |v| && v[i] == '[' && j == Find(v, Closes, i)
    ensures Progresses(v) <==> j < |v|
    ensures j < |v| ==> Iteration(v) == (v[..j + 1], v[j + 1..])
  {
  }

  lemma PeelsBy(v: string, out: string, rest: string)
    requires Progresses(v) && Iteration(v) == (out, rest) && Norm(v) == Prepend(out, Norm(rest))
    ensures Peels(v)
  {
  }

  lemma BracketPeels(v: string, i: nat)
    requires i == Find(v, Delimits, 0) < |v| && v[i] == '['
    ensures Peels(v)
  {
    var j := Find(v, Closes, i);
    BracketStep(v, i, j);
    BracketIteration(v, i, j);
    if j < |v| {
      PeelsBy(v, v[..j + 1], v[j + 1..]);
    }
  }

  lemma SpaceIteration(v: string, i: nat)
    requires i == Find(v, Delimits, 0) < |v| && v[i] != '['
    ensures Progresses(v) <==> AsciiSpace(v[i])
    ensures AsciiSpace(v[i]) ==> Iteration(v) == (v[..i] + "\n", Trim(v[i + 1..]))
  {
  }

  lemma SpacePeels(v: string, i: nat)
    requires i == Find(v, Delimits, 0) < |v| && v[i] != '[' && RightTrimmed(v)
    ensures Peels(v)
  {
    SpaceStep(v, i);
    SpaceIteration(v, i);
    if AsciiSpace(v[i]) {
      PeelsBy(v, v[..i] + "\n", Trim(v[i + 1..]));
    }
  }

  /** Progress is made exactly if the iteration consumes something. */
  lemma IterationConsumes(v: string)
    requires v != "" && RightTrimmed(v)
    ensures Progresses(v) ==> |Iteration(v).1| < |v| && RightTrimmed(Iteration(v).1)
  {
  }

  lemma IterationStep(v: string)
    requires v != "" && RightTrimmed(v)
    ensures Peels(v)
  {
    var i := Find(v, Delimits, 0);
    if i == |v| {
      PlainPeels(v);
    } else if v[i] == '[' {
      BracketPeels(v, i);
    } else {
      SpacePeels(v, i);
    }
  }

  lemma StuckStays(v: string)
    requires v != "" && RightTrimmed(v) && !Progresses(v)
    ensures Norm(Iteration(v).1).None? && RightTrimmed(Iteration(v).1)
  {
    IterationConsumes(v);
    IterationStep(v);
    var i := Find(v, Delimits, 0);
    if v[i] == '[' {
      NormBracket(v, i, Find(v, Closes, i));
    }
  }

  /** Whether or not it makes progress, an iteration agrees with the normal form. One that consumes
      nothing also writes nothing, so it is repeated forever, and there is no normal form. */
  lemma IterationPeels(v: string, out: string, rest: string)
    requires v != "" && RightTrimmed(v) && Iteration(v) == (out, rest)
    ensures Norm(v) == Prepend(out, Norm(rest)) && RightTrimmed(rest)
    ensures |rest| < |v| || (rest == v && out == "" && Norm(v).None?)
  {
    IterationConsumes(v);
    IterationStep(v);
    if !Progresses(v) {
      StuckStays(v);
    }
  }

  /** The body of the loop as it is coded. */
  method Iterate(value: string, buf: string) returns (value': string, buf': string)
    requires value != ""
    ensures value' == Iteration(value).1 && buf' == buf + Iteration(value).0
  {
    value', buf' := value, buf;
    var i := Find(value, Delimits, 0);
    if i == |value| {
      buf' := buf' + value;
      value' := value[|value|..];
    } else if value[i] == '[' {
      var close := Find(value, Closes, i);
      var index: int := if close == |value| then -1 else close - i;  // strings.IndexRune
      var j := index + i;
      buf' := buf' + value[..j + 1];
      value' := value[j + 1..];
    } else if AsciiSpace(value[i]) {
      Regroup(buf, value[..i], "\n");
      buf' := buf' + value[..i];
      buf' := buf' + "\n";
      value' := Trim(value[i + 1..]);
    } else {
      assert buf + "" == buf;
    }
  }

  /** The loop. It ends with the normal form in the buffer, or comes to an iteration that changes nothing
      and would be repeated forever. */
  method Normalize(value0: string) returns (buf: string, ends: bool)
    ensures Norm(Trim(value0)) == if ends then Some(buf) else None
  {
    var value := Trim(value0);
    buf := "";
    PrependTwice("", "", Norm(value));
    while |value| > 0
      invariant RightTrimmed(value)
      invariant Norm(Trim(value0)) == Prepend(buf, Norm(value))
      decreases |value|
    {
      var before := value;
      ghost var buf0 := buf;
      value, buf := Iterate(value, buf);
      ghost var out := Iteration(before).0;
      IterationPeels(before, out, value);
      PrependTwice(buf0, out, Norm(value));
      if value == before {
        return buf, false;
      }
    }
    assert buf + "" == buf;
    return buf, true;
  }

  // ---------- When the loop ends ----------

  /** One iteration, seen from the runs and from the normal form. */
  lemma NormStep(v: string) returns (out: string, rest: string)
    requires v != "" && RightTrimmed(v) && Norm(v).Some?
    ensures |rest| < |v| && RightTrimmed(rest)
    ensures Norm(rest).Some? && Norm(v).value == out + Norm(rest).value
    ensures forall m: nat :: Run(v, m + 1) == (out + Run(rest, m).0, Run(rest, m).1)
  {
    IterationConsumes(v);
    IterationStep(v);
    out, rest := Iteration(v).0, Iteration(v).1;
    forall m: nat
      ensures Run(v, m + 1) == (out + Run(rest, m).0, Run(rest, m).1)
    {
    }
  }

  lemma {:induction false} RunEnds(v: string) returns (n: nat, norm: string)
    requires RightTrimmed(v) && Norm(v).Some?
    ensures Run(v, n) == (norm, "") && norm == Norm(v).value
    decreases |v|
  {
    if v == "" {
      return 0, "";
    }
    var out, rest := NormStep(v);
    var m, more := RunEnds(rest);
    n, norm := m + 1, out + more;
    assert Run(v, m + 1) == (out + Run(rest, m).0, Run(rest, m).1);
  }

  lemma StuckStep(v: string) returns (rest: string)
    requires RightTrimmed(v) && Norm(v).None?
    ensures RightTrimmed(rest) && Norm(rest).None?
    ensures forall n: nat :: Run(v, n + 1).1 == Run(rest, n).1
  {
    var out := Iteration(v).0;
    rest := Iteration(v).1;
    IterationPeels(v, out, rest);
    forall n: nat
      ensures Run(v, n + 1).1 == Run(rest, n).1
    {
    }
  }

  lemma {:induction false} RunSpins(v: string, n: nat)
    requires RightTrimmed(v) && Norm(v).None?
    ensures Run(v, n).1 != ""
    decreases n
  {
    if n > 0 {
      var rest := StuckStep(v);
      RunSpins(rest, n - 1);
      assert Run(v, (n - 1) + 1).1 == Run(rest, n - 1).1;
    }
  }

  lemma RunEndsIff(v: string)
    requires RightTrimmed(v)
    ensures (exists n :: Run(v, n).1 == "") <==> Norm(v).Some?
    ensures Norm(v).Some? ==> exists n :: Run(v, n) == (Norm(v).value, "")
  {
    if Norm(v).Some? {
      var n, norm := RunEnds(v);
      assert Run(v, n).1 == "";
    } else {
      forall n
        ensures Run(v, n).1 != ""
      {
        RunSpins(v, n);
      }
    }
  }

  predicate Ascii(v: string)
  {
    forall i :: 0 <= i < |v| ==> v[i] < '\U{0080}'
  }

  /** Every '[' has a ']' somewhere after it. */
  ghost predicate BracketsClose(v: string)
  {
    forall i :: 0 <= i < |v| && v[i] == '[' ==> exists j :: i < j < |v| && v[j] == ']'
  }

  lemma BracketsCloseInSuffix(v: string, k: nat)
    requires k <= |v|
    requires forall i :: 0 <= i < k && v[i] == '[' ==> exists j :: i < j < |v| && v[j] == ']'
    ensures BracketsClose(v) <==> BracketsClose(v[k..])
  {
    var w := v[k..];
    if BracketsClose(w) {
      forall i | 0 <= i < |v| && v[i] == '['
        ensures exists j :: i < j < |v| && v[j] == ']'
      {
        if i >= k {
          assert w[i - k] == '[';
          var j :| i - k < j < |w| && w[j] == ']';
          assert v[j + k] == ']';
        }
      }
    }
    if BracketsClose(v) {
      forall i | 0 <= i < |w| && w[i] == '['
        ensures exists j :: i < j < |w| && w[j] == ']'
      {
        assert v[i + k] == '[';
        var j :| i + k < j < |v| && v[j] == ']';
        assert w[j - k] == ']';
      }
    }
  }

  lemma ClosedPastBracket(v: string)
    requires v != "" && v[0] == '['
    ensures var j := Find(v, Closes, 0);
            if j == |v| then !BracketsClose(v) else BracketsClose(v) <==> BracketsClose(v[j + 1..])
  {
    var j := Find(v, Closes, 0);
    if j < |v| {
      BracketsCloseInSuffix(v, j + 1);
    }
  }

  /** A run of whitespace in front, of length `k`. */
  ghost predicate SpaceRun(v: string, k: nat)
  {
    0 < k <= |v| && (forall i :: 0 <= i < k ==> IsSpace(v[i])) && (k < |v| ==> !IsSpace(v[k]))
  }

  lemma TrimmedRun(v: string) returns (k: nat)
    requires v != "" && IsSpace(v[0])
    ensures SpaceRun(v, k) && v[k..] == TrimLeft(v[1..])
  {
    var rest := TrimLeft(v[1..]);
    TrimLeftIs(v[1..]);
    k := |v| - |rest|;
    assert forall i :: 1 <= i < k ==> v[i] == v[1..][i - 1];
    assert v[k..] == rest;
  }

  lemma ClosedPastSpace(v: string, k: nat)
    requires SpaceRun(v, k)
    ensures BracketsClose(v) <==> BracketsClose(v[k..])
  {
    BracketsCloseInSuffix(v, k);
  }

  /** Whether a bracket is open before position `i`. */
  predicate Open(v: string, i: nat)
    requires i <= |v|
  {
    i > 0 && if Open(v, i - 1) then v[i - 1] != ']' else v[i - 1] == '['
  }

  lemma {:induction false} OpenFrom(v: string, k: nat, i: nat)
    requires k + i <= |v| && !Open(v, k)
    ensures Open(v, k + i) <==> Open(v[k..], i)
  {
    if i > 0 {
      OpenFrom(v, k, i - 1);
      assert v[k..][i - 1] == v[k + i - 1];
    }
  }

  lemma {:induction false} OpenInBracket(v: string, i: nat)
    requires 0 < i <= |v| && v[0] == '[' && ']' !in v[..i]
    ensures Open(v, i)
  {
    if i > 1 {
      assert v[..i][i - 1] == v[i - 1];
      assert ']' !in v[..i - 1] by {
        assert v[..i - 1] == v[..i][..i - 1];
      }
      OpenInBracket(v, i - 1);
    }
  }

  lemma {:induction false} NotOpenInText(v: string, i: nat)
    requires i <= |v| && forall k :: 0 <= k < i ==> v[k] != '['
    ensures !Open(v, i)
  {
    if i > 0 {
      NotOpenInText(v, i - 1);
    }
  }

  /** Outside brackets, whitespace beyond ASCII stands right after other whitespace. */
  predicate FollowsSpace(v: string, i: nat)
    requires i < |v|
  {
    IsSpace(v[i]) && !AsciiSpace(v[i]) && !Open(v, i) ==> i > 0 && IsSpace(v[i - 1])
  }

  ghost predicate WideSpacesFollow(v: string)
  {
    forall i :: 0 <= i < |v| ==> FollowsSpace(v, i)
  }

  lemma FollowsInSuffix(v: string, k: nat, i: nat)
    requires k + i < |v| && !Open(v, k)
    requires i == 0 && k > 0 && IsSpace(v[k - 1]) ==> !IsSpace(v[k])
    ensures FollowsSpace(v, k + i) <==> FollowsSpace(v[k..], i)
  {
    OpenFrom(v, k, i);
    assert v[k..][i] == v[k + i];
    assert i > 0 ==> v[k..][i - 1] == v[k + i - 1];
  }

  lemma FollowInSuffix(v: string, k: nat)
    requires k <= |v| && !Open(v, k) && (0 < k < |v| && IsSpace(v[k - 1]) ==> !IsSpace(v[k]))
    requires forall i :: 0 <= i < k ==> FollowsSpace(v, i)
    ensures WideSpacesFollow(v) <==> WideSpacesFollow(v[k..])
  {
    forall i | 0 <= i < |v| - k
      ensures FollowsSpace(v, k + i) <==> FollowsSpace(v[k..], i)
    {
      FollowsInSuffix(v, k, i);
    }
    if WideSpacesFollow(v[k..]) {
      forall i | k <= i < |v|
        ensures FollowsSpace(v, i)
      {
        assert FollowsSpace(v[k..], i - k) && k + (i - k) == i;
      }
    }
    if WideSpacesFollow(v) {
      forall i | 0 <= i < |v[k..]|
        ensures FollowsSpace(v[k..], i)
      {
        assert FollowsSpace(v, k + i);
      }
    }
  }

  lemma FollowPastBracket(v: string, j: nat)
    requires v != "" && v[0] == '[' && j == Find(v, Closes, 0) < |v|
    ensures WideSpacesFollow(v) <==> WideSpacesFollow(v[j + 1..])
  {
    forall i | 0 <= i <= j
      ensures FollowsSpace(v, i) && (i > 0 ==> Open(v, i))
    {
      if i > 0 {
        OpenInBracket(v, i);
      }
    }
    FollowInSuffix(v, j + 1);
  }

  lemma FollowPastSpace(v: string, k: nat)
    requires SpaceRun(v, k) && AsciiSpace(v[0])
    ensures WideSpacesFollow(v) <==> WideSpacesFollow(v[k..])
  {
    NotOpenInText(v, k);
    FollowInSuffix(v, k);
  }

  lemma FollowPastText(v: string)
    requires v != "" && v[0] != '[' && !IsSpace(v[0])
    ensures WideSpacesFollow(v) <==> WideSpacesFollow(v[1..])
  {
    assert !Open(v, 0);
    FollowInSuffix(v, 1);
  }

  /** Both conditions for the loop to end: every '[' has a ']' somewhere after it, and no run of whitespace
      outside brackets starts with whitespace beyond ASCII. */
  ghost predicate Ends(v: string)
  {
    BracketsClose(v) && WideSpacesFollow(v)
  }

  /** How ending depends on the rest, by what the options start with. */
  lemma EndsIffRestEnds(v: string, rest: string)
    requires v != ""
    requires if v[0] == '[' then Find(v, Closes, 0) < |v| && rest == v[Find(v, Closes, 0) + 1..]
             else if AsciiSpace(v[0]) then rest == TrimLeft(v[1..])
             else !IsSpace(v[0]) && rest == v[1..]
    ensures Norm(v).Some? <==> Norm(rest).Some?
  {
  }

  lemma EndsStep(v: string) returns (rest: string)
    requires v != "" && (v[0] == '[' ==> Find(v, Closes, 0) < |v|) && (IsSpace(v[0]) ==> AsciiSpace(v[0]))
    ensures |rest| < |v| && (Ends(v) <==> Ends(rest))
    ensures Norm(v).Some? <==> Norm(rest).Some?
  {
    if v[0] == '[' {
      ClosedPastBracket(v);
      FollowPastBracket(v, Find(v, Closes, 0));
      rest := v[Find(v, Closes, 0) + 1..];
    } else if AsciiSpace(v[0]) {
      var k := TrimmedRun(v);
      ClosedPastSpace(v, k);
      FollowPastSpace(v, k);
      rest := v[k..];
    } else {
      BracketsCloseInSuffix(v, 1);
      FollowPastText(v);
      rest := v[1..];
    }
    EndsIffRestEnds(v, rest);
  }

  lemma NormAtWideSpace(v: string)
    requires v != "" && IsSpace(v[0]) && !AsciiSpace(v[0])
    ensures Norm(v) == None && !WideSpacesFollow(v)
  {
    assert !FollowsSpace(v, 0);
  }

  /** There is a normal form if and only if both conditions hold, for every string. */
  lemma {:induction false} NormExistsIff(v: string)
    ensures Norm(v).Some? <==> Ends(v)
    decreases |v|
  {
    if v != "" {
      if v[0] == '[' && Find(v, Closes, 0) == |v| {
        ClosedPastBracket(v);
        NormAtOpenBracket(v);
      } else if IsSpace(v[0]) && !AsciiSpace(v[0]) {
        NormAtWideSpace(v);
      } else {
        var rest := EndsStep(v);
        NormExistsIff(rest);
      }
    }
  }

  /** The coded loop ends if and only if every '[' has a later ']' and no run of whitespace outside brackets
      starts with whitespace beyond ASCII; its buffer then holds the normal form. */
  lemma LoopEndsIff(value: string)
    ensures (exists n :: Run(Trim(value), n).1 == "") <==> Ends(Trim(value))
    ensures Ends(Trim(value)) ==>
              Norm(Trim(value)).Some? && exists n :: Run(Trim(value), n) == (Norm(Trim(value)).value, "")
  {
    NormExistsIff(Trim(value));
    RunEndsIff(Trim(value));
  }

  /** On ASCII options only the brackets matter. */
  lemma AsciiEndsIff(value: string)
    requires Ascii(value)
    ensures (exists n :: Run(Trim(value), n).1 == "") <==> BracketsClose(Trim(value))
  {
    var v := Trim(value);
    forall i | 0 <= i < |v|
      ensures FollowsSpace(v, i)
    {
      if v[i] !in value {
        TrimKeepsFree(value, v[i]);
      }
    }
    LoopEndsIff(value);
  }

  /** Whitespace beyond ASCII makes the loop spin wherever it is the first delimiter left, as the
      no-break space in "a\u00A0b" is. */
  lemma WideSpaceSpins(text: string, space: char, rest: string)
    requires forall i :: 0 <= i < |text| ==> !Delimits(text[i])
    requires IsSpace(space) && !AsciiSpace(space) && rest != "" && RightTrimmed(rest)
    ensures Norm(text + [space] + rest) == None
  {
    var v := text + [space] + rest;
    assert RightTrimmed(v) by {
      assert v[|v| - 1] == rest[|rest| - 1];
    }
    FindIs(v, Delimits, 0, |text|);
    SpaceStep(v, |text|);
  }

  // ---------- Normal forms, and printing them ----------

  /** Brackets that close; single newlines, each followed by text; no other whitespace. */
  ghost predicate Normal(n: string)
    decreases |n|
  {
    n == "" ||
    if n[0] == '[' then Find(n, Closes, 0) < |n| && Normal(n[Find(n, Closes, 0) + 1..])
    else if n[0] == '\n' then |n| > 1 && !IsSpace(n[1]) && Normal(n[1..])
    else !IsSpace(n[0]) && Normal(n[1..])
  }

  lemma {:induction false} NormIsNormal(v: string)
    requires RightTrimmed(v) && Norm(v).Some?
    ensures var n := Norm(v).value;
            Normal(n) && (v == "" <==> n == "") && (n != "" && IsSpace(n[0]) ==> IsSpace(v[0]))
    decreases |v|
  {
    if v != "" {
      var n := Norm(v).value;
      if v[0] == '[' {
        var j := Find(v, Closes, 0);
        NormIsNormal(v[j + 1..]);
        var m := Norm(v[j + 1..]).value;
        assert n == v[..j + 1] + m;
        FindIs(n, Closes, 0, j);
        assert n[j + 1..] == m;
      } else if AsciiSpace(v[0]) {
        var rest := TrimLeft(v[1..]);
        TrimLeftIs(v[1..]);
        NormIsNormal(rest);
        assert n == "\n" + Norm(rest).value;
        assert n[1..] == Norm(rest).value;
      } else {
        NormIsNormal(v[1..]);
        assert n[1..] == Norm(v[1..]).value;
      }
    }
  }

  lemma {:induction false} NormalEnds(n: string)
    requires Normal(n)
    ensures RightTrimmed(n)
    decreases |n|
  {
    if n != "" {
      var k := if n[0] == '[' then Find(n, Closes, 0) + 1 else 1;
      NormalEnds(n[k..]);
      if k == |n| {
        assert n[|n| - 1] == if n[0] == '[' then ']' else n[0];
      } else {
        assert n[|n| - 1] == n[k..][|n| - k - 1];
      }
    }
  }

  /** How options are printed: newlines become spaces. */
  function Spaced(n: string): (p: string)
    ensures |p| == |n| && forall i :: 0 <= i < |n| ==> p[i] == if n[i] == '\n' then ' ' else n[i]
  {
    seq(|n|, i requires 0 <= i < |n| => if n[i] == '\n' then ' ' else n[i])
  }

  /** The normal form with the newlines inside brackets turned into spaces. */
  ghost function StanzasSpaced(n: string): string
    requires Normal(n)
    decreases |n|
  {
    if n == "" then ""
    else if n[0] == '[' then
      var j := Find(n, Closes, 0);
      Spaced(n[..j + 1]) + StanzasSpaced(n[j + 1..])
    else n[..1] + StanzasSpaced(n[1..])
  }

  /** No bracket spans lines. */
  ghost predicate StanzasOnOneLine(n: string)
    requires Normal(n)
    decreases |n|
  {
    n == "" ||
    if n[0] == '[' then
      var j := Find(n, Closes, 0);
      '\n' !in n[..j + 1] && StanzasOnOneLine(n[j + 1..])
    else StanzasOnOneLine(n[1..])
  }

  /** Normalising what was printed restores everything but newlines inside brackets. */
  lemma {:induction false} NormOfPrinted(n: string)
    requires Normal(n)
    ensures Norm(Spaced(n)) == Some(StanzasSpaced(n))
    decreases |n|
  {
    if n != "" {
      var p := Spaced(n);
      if n[0] == '[' {
        var j := Find(n, Closes, 0);
        FindIs(p, Closes, 0, j);
        assert p[j + 1..] == Spaced(n[j + 1..]) && p[..j + 1] == Spaced(n[..j + 1]);
        NormOfPrinted(n[j + 1..]);
      } else {
        assert p[1..] == Spaced(n[1..]);
        NormOfPrinted(n[1..]);
        if n[0] == '\n' {
          assert TrimLeft(p[1..]) == p[1..];
          assert n[..1] == "\n";
        } else {
          assert p[..1] == n[..1];
        }
      }
    }
  }

  lemma {:induction false} StanzasSpacedIff(n: string)
    requires Normal(n)
    ensures |StanzasSpaced(n)| == |n|
    ensures StanzasSpaced(n) == n <==> StanzasOnOneLine(n)
    decreases |n|
  {
    if n != "" {
      var j := if n[0] == '[' then Find(n, Closes, 0) else 0;
      var front, back := n[..j + 1], n[j + 1..];
      assert n == front + back;
      StanzasSpacedIff(back);
      if n[0] == '[' {
        var s := StanzasSpaced(n);
        assert s[..j + 1] == Spaced(front) && s[j + 1..] == StanzasSpaced(back);
        if '\n' in front {
          var k :| 0 <= k < |front| && front[k] == '\n';
          assert s[k] == ' ' && n[k] == '\n';
        } else {
          assert Spaced(front) == front;
        }
      } else {
        assert StanzasSpaced(n) == front + StanzasSpaced(back);
        assert StanzasSpaced(n)[j + 1..] == StanzasSpaced(back);
      }
    }
  }

  /** Printing the options of an accepted specification and normalising them again gives them back if
      and only if no bracket spans lines. */
  lemma PrintedOptionsComeBack(value: string)
    requires Norm(Trim(value)).Some?
    ensures var n := Norm(Trim(value)).value;
            && Normal(n)
            && Norm(Trim(Spaced(n))) == Some(StanzasSpaced(n))
            && (Norm(Trim(Spaced(n))) == Some(n) <==> StanzasOnOneLine(n))
  {
    var n := Norm(Trim(value)).value;
    NormIsNormal(Trim(value));
    SpacedIsTrimmed(n);
    NormOfPrinted(n);
    StanzasSpacedIff(n);
  }

  lemma TrimIsIdentity(s: string)
    requires RightTrimmed(s) && (s != "" ==> !IsSpace(s[0]))
    ensures Trim(s) == s
  {
    assert TrimLeft(s) == s;
  }

  lemma SpacedIsTrimmed(n: string)
    requires Normal(n) && (n != "" ==> !IsSpace(n[0]))
    ensures Trim(Spaced(n)) == Spaced(n)
  {
    NormalEnds(n);
    TrimIsIdentity(Spaced(n));
  }
}
