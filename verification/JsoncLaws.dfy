/**
 What the two passes do, told in characters: which text is a comment and what is left of it, and which commas
 are dropped. Together the equations determine the passes, whatever the scans call whitespace, brackets,
 comments and literals.
 */
module JsoncLaws {
  import opened Common
  import opened JsoncTokens
  import Comments = JsoncComments
  import Commas = JsoncCommas
  import Passes = JsoncPasses

  // ---------- Comments ----------

  lemma CharIsKept(c: char, rest: string)
    requires c != '"' && c != '/'
    ensures Comments.Strip([c] + rest) == [c] + Comments.Strip(rest)
  {
    var s := [c] + rest;
    assert s[1..] == rest && s[0..] == s;
    Comments.FirstIsCode(s, 0);
    Comments.StripKept(s, Code(c), rest);
  }

  lemma Regroup(c: char, a: string, rest: string)
    ensures ([c] + a) + rest == [c] + (a + rest)
  {
  }

  /** Text without quotes and slashes is kept. */
  lemma {:induction false} PlainTextIsKept(a: string, rest: string)
    requires '"' !in a && '/' !in a
    ensures Comments.Strip(a + rest) == a + Comments.Strip(rest)
  {
    if a == "" {
      assert a + rest == rest;
      assert a + Comments.Strip(rest) == Comments.Strip(rest);
    } else {
      var c, more := a[0], a[1..];
      assert a == [c] + more;
      PlainTextIsKept(more, rest);
      Regroup(c, more, rest);
      CharIsKept(c, more + rest);
      Regroup(c, more, Comments.Strip(rest));
    }
  }

  /** A slash that starts no comment is kept. */
  lemma SlashIsKept(rest: string)
    requires rest != "" ==> rest[0] != '/' && rest[0] != '*'
    ensures Comments.Strip("/" + rest) == "/" + Comments.Strip(rest)
  {
    var s := "/" + rest;
    assert s[1..] == rest && s[0..] == s;
    Comments.FirstIsCode(s, 0);
    Comments.StripKept(s, Code('/'), rest);
  }

  lemma {:induction false} LineEndsAt(b: string, rest: string)
    requires '\n' !in b && (rest != "" ==> rest[0] == '\n')
    ensures LineRest(b + rest) == |b|
  {
    if b == "" {
      assert b + rest == rest;
    } else {
      assert (b + rest)[1..] == b[1..] + rest;
      LineEndsAt(b[1..], rest);
    }
  }

  /** A line comment goes up to the newline, which stays, or to the end of the text. */
  lemma LineCommentIsDropped(b: string, rest: string)
    requires '\n' !in b && (rest != "" ==> rest[0] == '\n')
    ensures Comments.Strip("//" + b + rest) == Comments.Strip(rest)
  {
    var text := "//" + b;
    var s := text + rest;
    assert s[0..] == s && s[0] == '/' && s[1] == '/' && s[..|text|] == text && s[|text|..] == rest;
    LineEndsAt(text, rest);
    Comments.FirstIsLine(s, 0);
    Comments.StripFirst(s, LineComment(text), rest);
    assert "" + Comments.Strip(rest) == Comments.Strip(rest);
  }

  /** The text contains no end of a block comment. */
  predicate NoBlockEnd(b: string)
  {
    forall i :: 0 < i < |b| ==> !(b[i - 1] == '*' && b[i] == '/')
  }

  lemma {:induction false} BlockEndsAt(b: string, rest: string)
    requires NoBlockEnd(b)
    ensures BlockRest(b + "*/" + rest) == |b| + 2
  {
    var s := b + "*/" + rest;
    if b == "" {
      assert s[..2] == "*/";
    } else {
      assert s[1..] == b[1..] + "*/" + rest;
      assert s[0] == b[0] && s[1] == if |b| > 1 then b[1] else '*';
      assert !("*/" <= s);
      forall i | 0 < i < |b[1..]|
        ensures !(b[1..][i - 1] == '*' && b[1..][i] == '/')
      {
        assert !(b[i] == '*' && b[i + 1] == '/');
      }
      BlockEndsAt(b[1..], rest);
    }
  }

  /** As many newlines as there are in the text. */
  function LineBreaks(b: string): string
  {
    seq(multiset(b)['\n'], _ => '\n')
  }

  lemma LineBreaksCons(c: char, b: string)
    ensures LineBreaks([c] + b) == (if c == '\n' then "\n" else "") + LineBreaks(b)
  {
    assert multiset([c] + b) == multiset{c} + multiset(b);
  }

  lemma {:induction false} NewlinesAreLineBreaks(b: string)
    ensures Comments.Newlines(b) == LineBreaks(b)
  {
    if b == "" {
      assert LineBreaks(b) == "";
    } else {
      NewlinesAreLineBreaks(b[1..]);
      assert b == [b[0]] + b[1..];
      LineBreaksCons(b[0], b[1..]);
    }
  }

  lemma DelimitersHoldNoLineBreak(b: string, text: string)
    requires text == "/*" + b + "*/"
    ensures LineBreaks(text[..|text| - 1]) == LineBreaks(b)
  {
    assert text[..|text| - 1] == ['/', '*'] + b + ['*'];
    assert multiset(['/', '*'] + b + ['*']) == multiset{'/', '*'} + multiset(b) + multiset{'*'};
  }

  /** A block comment is replaced by its newlines. */
  lemma BlockCommentIsDropped(b: string, rest: string)
    requires NoBlockEnd(b)
    ensures Comments.Strip("/*" + b + "*/" + rest) == LineBreaks(b) + Comments.Strip(rest)
  {
    var text := "/*" + b + "*/";
    var s := text + rest;
    assert s == "/*" + b + "*/" + rest;
    assert s[0..] == s && s[0] == '/' && s[1] == '*' && s[2..] == b + "*/" + rest;
    BlockEndsAt(b, rest);
    Comments.FirstIsBlock(s, 0, |text|);
    assert s[0..|text|] == text && s[|text|..] == rest;
    Comments.StripBlock(s, text, rest);
    NewlinesAreLineBreaks(text[..|text| - 1]);
    DelimitersHoldNoLineBreak(b, text);
  }

  /** Between the quotes of a literal: a backslash takes the next character along, and no other quote. */
  predicate Quoted(b: string)
  {
    b == "" || (if b[0] == '\\' then |b| >= 2 && Quoted(b[2..]) else b[0] != '"' && Quoted(b[1..]))
  }

  lemma {:induction false} QuotedCloses(b: string)
    requires Quoted(b)
    ensures LiteralRest(b + "\"", false) == |b| + 1 && LiteralCloses(b + "\"", false)
  {
    var s := b + "\"";
    if b != "" && b[0] == '\\' {
      assert s[1..][1..] == b[2..] + "\"" && s[1..][0] == b[1];
      QuotedCloses(b[2..]);
    } else if b != "" {
      assert s[1..] == b[1..] + "\"";
      QuotedCloses(b[1..]);
    }
  }

  lemma LiteralIsToken(b: string, rest: string, text: string)
    requires Quoted(b) && text == "\"" + b + "\""
    ensures Lex(text + rest, true) == [Literal(text)] + Lex(rest, true)
    ensures Lex(text + rest, false) == [Literal(text)] + Lex(rest, false)
  {
    assert text[1..] == b + "\"";
    QuotedCloses(b);
    LexOfLiteral(text, rest, true);
    LexOfLiteral(text, rest, false);
  }

  /** A literal is kept, whatever looks like a comment in it. */
  lemma LiteralIsKept(b: string, rest: string, text: string)
    requires Quoted(b) && text == "\"" + b + "\""
    ensures Comments.Strip(text + rest) == text + Comments.Strip(rest)
  {
    LiteralIsToken(b, rest, text);
    var s := text + rest;
    assert Lex(s, true)[0] == Literal(text) == First(s, true);
    assert s[|text|..] == rest;
    Comments.StripKept(s, Literal(text), rest);
  }

  // ---------- Commas ----------

  /** A comma, then only spaces, tabs, carriage returns and newlines, and then a closing bracket. */
  ghost predicate TrailingAt(ts: seq<Token>, i: nat)
  {
    && i < |ts| && ts[i] == Code(',')
    && exists j :: i < j < |ts| && (ts[j] == Code('}') || ts[j] == Code(']')) && BlankBetween(ts, i, j)
  }

  ghost predicate BlankBetween(ts: seq<Token>, i: nat, j: nat)
    requires j <= |ts|
  {
    forall k :: i < k < j ==> ts[k] == Code(' ') || ts[k] == Code('\t') || ts[k] == Code('\r') || ts[k] == Code('\n')
  }

  /** Two commas with nothing but such characters, or comments, between them. */
  ghost predicate CommasAt(ts: seq<Token>, i: nat, j: nat)
  {
    && i < j < |ts| && ts[i] == Code(',') && ts[j] == Code(',')
    && forall k :: i < k < j ==>
         || ts[k].LineComment? || ts[k].BlockComment?
         || ts[k] == Code(' ') || ts[k] == Code('\t') || ts[k] == Code('\r') || ts[k] == Code('\n')
  }

  /** Where the first token is that is not whitespace. */
  lemma {:induction false} SolidIsAt(ts: seq<Token>, i: nat) returns (j: nat)
    requires i < |ts|
    ensures i < j <= |ts| && BlankBetween(ts, i, j)
    ensures j < |ts| ==> !BlankBetween(ts, i, j + 1)
    ensures Commas.Solid(ts[i + 1..]) == if j < |ts| then Some(ts[j]) else None
    decreases |ts| - i
  {
    j := i + 1;
    if j < |ts| {
      assert ts[j..][0] == ts[j] && ts[j..][1..] == ts[j + 1..];
      if ts[j].Code? && Commas.IsSpace(ts[j].c) {
        j := SolidIsAt(ts, j);
        assert BlankBetween(ts, i, j);
      } else {
        assert !BlankBetween(ts, i, j + 1);
      }
    }
  }

  lemma TrailingIsAt(ts: seq<Token>, i: nat)
    requires i < |ts|
    ensures Commas.Trailing(ts[i..]) <==> TrailingAt(ts, i)
  {
    assert ts[i..][0] == ts[i] && ts[i..][1..] == ts[i + 1..];
    var j := SolidIsAt(ts, i);
  }

  /** `idx` lists the positions of `ts` that are left in `out`, in order. */
  ghost predicate Picks(ts: seq<Token>, out: seq<Token>, idx: seq<nat>)
  {
    && |idx| == |out|
    && (forall a, b :: 0 <= a < b < |idx| ==> idx[a] < idx[b])
    && (forall k :: 0 <= k < |idx| ==> idx[k] < |ts| && out[k] == ts[idx[k]])
  }

  function Shifted(idx: seq<nat>): seq<nat>
  {
    seq(|idx|, k requires 0 <= k < |idx| => idx[k] + 1)
  }

  lemma PicksCons(t: Token, ts: seq<Token>, out: seq<Token>, idx: seq<nat>)
    requires Picks(ts, out, idx)
    ensures Picks([t] + ts, out, Shifted(idx))
    ensures Picks([t] + ts, [t] + out, [0] + Shifted(idx))
  {
  }

  lemma ShiftedHas(idx: seq<nat>, i: nat)
    ensures i in Shifted(idx) <==> i > 0 && i - 1 in idx
  {
    if i > 0 && i - 1 in idx {
      var k :| 0 <= k < |idx| && idx[k] == i - 1;
      assert Shifted(idx)[k] == i;
    }
  }

  /** The positions where no trailing comma stands. */
  ghost predicate Untrailing(ts: seq<Token>, idx: seq<nat>)
  {
    forall i: nat :: i in idx <==> i < |ts| && !Commas.Trailing(ts[i..])
  }

  lemma UntrailingCons(ts: seq<Token>, more: seq<nat>, idx: seq<nat>)
    requires ts != [] && Untrailing(ts[1..], more)
    requires idx == if Commas.Trailing(ts) then Shifted(more) else [0] + Shifted(more)
    ensures Untrailing(ts, idx)
  {
    forall i: nat
      ensures i in idx <==> i < |ts| && !Commas.Trailing(ts[i..])
    {
      ShiftedHas(more, i);
      assert i in idx <==> (i == 0 && !Commas.Trailing(ts)) || i in Shifted(more);
      if i == 0 {
        assert ts[0..] == ts;
      } else if i < |ts| {
        assert ts[1..][i - 1..] == ts[i..];
      }
    }
  }

  lemma {:induction false} DroppedByPosition(ts: seq<Token>) returns (idx: seq<nat>)
    ensures Picks(ts, Commas.DropCommas(ts), idx) && Untrailing(ts, idx)
  {
    idx := [];
    if ts != [] {
      var rest := ts[1..];
      var more := DroppedByPosition(rest);
      PicksCons(ts[0], rest, Commas.DropCommas(rest), more);
      assert ts == [ts[0]] + rest;
      idx := if Commas.Trailing(ts) then Shifted(more) else [0] + Shifted(more);
      UntrailingCons(ts, more, idx);
      assert Commas.Trailing(ts) ==> Commas.DropCommas(ts) == Commas.DropCommas(rest);
    }
  }

  /** The second pass drops a comma exactly if only whitespace separates it from a closing bracket; all other
      characters and all literals stay, in order. */
  lemma TrailingCommasAreDropped(s: string) returns (idx: seq<nat>)
    ensures Picks(Lex(s, false), Lex(Commas.Strip(s), false), idx)
    ensures forall i: nat :: i in idx <==> i < |Lex(s, false)| && !TrailingAt(Lex(s, false), i)
  {
    var ts := Lex(s, false);
    Commas.LexOfStripped(s);
    idx := DroppedByPosition(ts);
    forall i: nat | i < |ts|
      ensures Commas.Trailing(ts[i..]) <==> TrailingAt(ts, i)
    {
      TrailingIsAt(ts, i);
    }
  }

  lemma {:induction false} SolidPastIsAt(ts: seq<Token>, i: nat) returns (j: nat)
    requires i < |ts| && ts[i] == Code(',') && Passes.SolidPastComments(ts[i + 1..]) == Some(Code(','))
    ensures CommasAt(ts, i, j)
  {
    j := CommaPast(ts, i, i + 1);
  }

  lemma {:induction false} CommaPast(ts: seq<Token>, i: nat, m: nat) returns (j: nat)
    requires i < m <= |ts| && ts[i] == Code(',') && Passes.SolidPastComments(ts[m..]) == Some(Code(','))
    requires forall k :: i < k < m ==> Passes.Blank(ts[k])
    ensures CommasAt(ts, i, j)
    decreases |ts| - m
  {
    assert ts[m..][0] == ts[m] && ts[m..][1..] == ts[m + 1..];
    if Passes.Blank(ts[m]) {
      j := CommaPast(ts, i, m + 1);
    } else {
      j := m;
    }
  }

  /** Unless two commas stand next to each other, comments aside, no trailing comma is left after both passes. */
  lemma NoTrailingCommaIsLeft(s: string)
    requires forall i, j :: !CommasAt(Lex(s, true), i, j)
    ensures forall i :: !TrailingAt(Lex(Passes.ToJson(s), false), i)
  {
    var ts, out := Lex(s, true), Lex(Passes.ToJson(s), false);
    Passes.TrailingCommaLeftIff(s);
    if Passes.AdjacentCommas(ts) {
      var i :| 0 <= i < |ts| && ts[i] == Code(',') && Passes.SolidPastComments(ts[i + 1..]) == Some(Code(','));
      var j := SolidPastIsAt(ts, i);
    }
    forall i: nat
      ensures !TrailingAt(out, i)
    {
      if i < |out| {
        TrailingIsAt(out, i);
      }
    }
  }

  /** After both passes every token that the first one keeps is left, but for commas with only whitespace between
      them and a closing bracket. */
  lemma OnlyTrailingCommasAreDropped(s: string) returns (idx: seq<nat>)
    ensures var ts := Comments.KeepAll(Lex(s, true));
            && Picks(ts, Lex(Passes.ToJson(s), false), idx)
            && forall i: nat :: i in idx <==> i < |ts| && !TrailingAt(ts, i)
  {
    Comments.LexOfStripped(s, false);
    idx := TrailingCommasAreDropped(Comments.Strip(s));
  }
}
