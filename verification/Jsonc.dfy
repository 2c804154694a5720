/**
 JSON with comments and trailing commas, turned into JSON by two passes. Both passes tell string
 literals from the rest by their own hand-written scan; here there is one lexer, and each pass is proved
 to do to the text what a simple operation does to its tokens.
 */
module JsoncTokens {
  /** A comment includes its delimiters, but not the newline that ends a line comment. */
  datatype Token = Code(c: char) | Literal(text: string) | LineComment(text: string) | BlockComment(text: string)

  function TokenText(t: Token): string
  {
    match t
    case Code(c) => [c]
    case Literal(text) => text
    case LineComment(text) => text
    case BlockComment(text) => text
  }

  function Text(ts: seq<Token>): string
  {
    if ts == [] then "" else TokenText(ts[0]) + Text(ts[1..])
  }

  lemma {:induction false} TextConcat(a: seq<Token>, b: seq<Token>)
    ensures Text(a + b) == Text(a) + Text(b)
  {
    if a == [] {
      assert a + b == b;
    } else {
      assert (a + b)[1..] == a[1..] + b;
      TextConcat(a[1..], b);
    }
  }

  // ---------- The lexer ----------

  /** How far a string literal extends, from inside it: past the closing quote, or to the end. */
  function LiteralRest(s: string, escaped: bool): (n: nat)
    ensures n <= |s|
  {
    if s == "" then 0
    else if escaped then 1 + LiteralRest(s[1..], false)
    else if s[0] == '\\' then 1 + LiteralRest(s[1..], true)
    else if s[0] == '"' then 1
    else 1 + LiteralRest(s[1..], false)
  }

  /** Whether the literal is closed before the text ends. */
  predicate LiteralCloses(s: string, escaped: bool)
  {
    if s == "" then false
    else if escaped then LiteralCloses(s[1..], false)
    else if s[0] == '\\' then LiteralCloses(s[1..], true)
    else if s[0] == '"' then true
    else LiteralCloses(s[1..], false)
  }

  function LineRest(s: string): (n: nat)
    ensures n <= |s|
  {
    if s == "" || s[0] == '\n' then 0 else 1 + LineRest(s[1..])
  }

  lemma {:induction false} LineRestStops(s: string)
    ensures var n := LineRest(s); (n < |s| ==> s[n] == '\n') && '\n' !in s[..n]
  {
    if s != "" && s[0] != '\n' {
      LineRestStops(s[1..]);
      var n := LineRest(s);
      assert s[..n] == [s[0]] + s[1..][..n - 1];
    }
  }

  /** How far a block comment extends, from inside it: past its end, or to the end of the text. */
  function BlockRest(s: string): (n: nat)
    ensures n <= |s|
  {
    if s == "" then 0 else if "*/" <= s then 2 else 1 + BlockRest(s[1..])
  }

  predicate BlockCloses(s: string)
  {
    s != "" && ("*/" <= s || BlockCloses(s[1..]))
  }

  /** The first token; comments are recognised only if `comments`. */
  function First(s: string, comments: bool): (t: Token)
    requires s != ""
    ensures TokenText(t) <= s && TokenText(t) != ""
  {
    if s[0] == '"' then Literal(s[..1 + LiteralRest(s[1..], false)])
    else if comments && "//" <= s then
      assert s[0] != '\n';
      LineComment(s[..LineRest(s)])
    else if comments && "/*" <= s then BlockComment(s[..2 + BlockRest(s[2..])])
    else Code(s[0])
  }

  function Lex(s: string, comments: bool): seq<Token>
  {
    if s == "" then []
    else
      var t := First(s, comments);
      [t] + Lex(s[|TokenText(t)|..], comments)
  }

  lemma SplitPrefix(p: string, s: string)
    requires p <= s
    ensures s == p + s[|p|..]
  {
  }

  /** Nothing is lost. */
  lemma {:induction false} LexIsLossless(s: string, comments: bool)
    ensures Text(Lex(s, comments)) == s
    decreases |s|
  {
    if s != "" {
      var t := First(s, comments);
      var rest := s[|TokenText(t)|..];
      LexIsLossless(rest, comments);
      TextCons(t, Lex(rest, comments));
      SplitPrefix(TokenText(t), s);
    }
  }

  lemma TextCons(t: Token, ts: seq<Token>)
    ensures Text([t] + ts) == TokenText(t) + Text(ts)
  {
    assert ([t] + ts)[1..] == ts;
  }

  // ---------- Lexing what tokens print ----------

  /** A literal as the lexer cuts it out, closed or running to the end of the text. */
  predicate IsLiteral(text: string)
  {
    text != "" && text[0] == '"' && LiteralRest(text[1..], false) == |text| - 1
  }

  predicate IsClosed(text: string)
  {
    text != "" && LiteralCloses(text[1..], false)
  }

  /** Not a comment, and if a literal, closed unless it may be left open. */
  predicate ProperToken(t: Token, mayBeOpen: bool)
  {
    match t
    case Code(c) => c != '"'
    case Literal(text) => IsLiteral(text) && (mayBeOpen || IsClosed(text))
    case _ => false
  }

  /** No comments, and only the last literal may be left open. */
  ghost predicate Proper(ts: seq<Token>)
  {
    forall i :: 0 <= i < |ts| ==> ProperToken(ts[i], i == |ts| - 1)
  }

  predicate StartsComment(a: Token, b: Token)
  {
    a == Code('/') && (b == Code('/') || b == Code('*'))
  }

  /** No two tokens would read as the start of a comment. */
  ghost predicate NoCommentStarts(ts: seq<Token>)
  {
    forall i :: 0 < i < |ts| ==> !StartsComment(ts[i - 1], ts[i])
  }

  lemma {:induction false} ClosedLiteralExtends(s: string, escaped: bool, rest: string)
    requires LiteralCloses(s, escaped) && LiteralRest(s, escaped) == |s|
    ensures LiteralRest(s + rest, escaped) == |s|
  {
    if !(!escaped && s[0] == '"') {
      assert (s + rest)[1..] == s[1..] + rest;
      ClosedLiteralExtends(s[1..], !escaped && s[0] == '\\', rest);
    }
  }

  lemma {:induction false} LiteralIsCut(s: string, escaped: bool)
    ensures var n := LiteralRest(s, escaped);
            && LiteralRest(s[..n], escaped) == n
            && (LiteralCloses(s, escaped) <==> LiteralCloses(s[..n], escaped))
            && (!LiteralCloses(s, escaped) ==> n == |s|)
  {
    if s != "" && (escaped || s[0] != '"') {
      var n, next := LiteralRest(s, escaped), !escaped && s[0] == '\\';
      LiteralIsCut(s[1..], next);
      assert s[..n][1..] == s[1..][..n - 1];
    }
  }

  lemma LexOfLiteral(text: string, rest: string, comments: bool)
    requires IsLiteral(text) && (rest != "" ==> IsClosed(text))
    ensures Lex(text + rest, comments) == [Literal(text)] + Lex(rest, comments)
  {
    var s := text + rest;
    assert s[1..] == text[1..] + rest;
    if rest != "" {
      ClosedLiteralExtends(text[1..], false, rest);
    } else {
      assert s == text;
    }
    assert s[..|text|] == text && s[|text|..] == rest;
  }

  lemma LexOfCode(c: char, rest: string, comments: bool)
    requires c != '"' && (comments && c == '/' && rest != "" ==> rest[0] != '/' && rest[0] != '*')
    ensures Lex([c] + rest, comments) == [Code(c)] + Lex(rest, comments)
  {
    var s := [c] + rest;
    assert s[1..] == rest;
    assert comments && c == '/' ==> !("//" <= s) && !("/*" <= s);
  }

  lemma FirstChar(ts: seq<Token>)
    requires Proper(ts) && ts != []
    ensures Text(ts) != "" && Text(ts)[0] == if ts[0].Code? then ts[0].c else '"'
  {
  }

  lemma ProperTail(ts: seq<Token>, comments: bool)
    requires ts != [] && Proper(ts) && (comments ==> NoCommentStarts(ts))
    ensures Proper(ts[1..]) && (comments ==> NoCommentStarts(ts[1..]))
    ensures ProperToken(ts[0], ts[1..] == [])
    ensures comments && ts[1..] != [] ==> !StartsComment(ts[0], ts[1..][0])
  {
    var rest := ts[1..];
    assert forall i :: 0 <= i < |rest| ==> rest[i] == ts[i + 1];
    forall i | 0 < i < |rest| && comments
      ensures !StartsComment(rest[i - 1], rest[i])
    {
      assert !StartsComment(ts[i], ts[i + 1]);
    }
  }

  lemma LexOfFirst(t: Token, rest: seq<Token>, comments: bool)
    requires Proper(rest) && ProperToken(t, rest == [])
    requires comments && rest != [] ==> !StartsComment(t, rest[0])
    ensures Lex(TokenText(t) + Text(rest), comments) == [t] + Lex(Text(rest), comments)
  {
    if rest != [] {
      FirstChar(rest);
    }
    if t.Code? {
      LexOfCode(t.c, Text(rest), comments);
    } else {
      LexOfLiteral(t.text, Text(rest), comments);
    }
  }

  /** Lexing the text of proper tokens finds those tokens again. */
  lemma {:induction false} LexOfText(ts: seq<Token>, comments: bool)
    requires Proper(ts) && (comments ==> NoCommentStarts(ts))
    ensures Lex(Text(ts), comments) == ts
  {
    if ts != [] {
      ProperTail(ts, comments);
      LexOfText(ts[1..], comments);
      LexOfFirst(ts[0], ts[1..], comments);
    }
  }

  lemma ProperCons(t: Token, ts: seq<Token>)
    requires Proper(ts) && ProperToken(t, ts == [])
    ensures Proper([t] + ts)
  {
    var all := [t] + ts;
    assert forall i :: 0 < i < |all| ==> all[i] == ts[i - 1];
  }

  /** Literals and code cut out of any text are proper. */
  lemma {:induction false} LexIsProper(s: string)
    ensures Proper(Lex(s, false))
    decreases |s|
  {
    if s != "" {
      var t := First(s, false);
      var n := |TokenText(t)|;
      LexIsProper(s[n..]);
      if t.Literal? {
        LiteralIsCut(s[1..], false);
        assert t.text[1..] == s[1..][..n - 1];
      }
      ProperCons(t, Lex(s[n..], false));
    }
  }

  function Literals(ts: seq<Token>): seq<string>
  {
    if ts == [] then []
    else (if ts[0].Literal? then [ts[0].text] else []) + Literals(ts[1..])
  }

  lemma {:induction false} LiteralsConcat(a: seq<Token>, b: seq<Token>)
    ensures Literals(a + b) == Literals(a) + Literals(b)
  {
    if a == [] {
      assert a + b == b;
    } else {
      assert (a + b)[1..] == a[1..] + b && (a + b)[0] == a[0];
      LiteralsConcat(a[1..], b);
    }
  }

  // ---------- Passes over the text ----------

  /** What a pass writes from inside a string literal: the rest of the literal, then what it makes of
      the text after it. */
  function Inside(s: string, escaped: bool, pass: string -> string): string
  {
    s[..LiteralRest(s, escaped)] + pass(s[LiteralRest(s, escaped)..])
  }

  /** What a pass has yet to write, from position `i` on. */
  function Tail(s: string, i: nat, inString: bool, escaped: bool, pass: string -> string): string
    requires i <= |s|
  {
    if inString then Inside(s[i..], escaped, pass) else pass(s[i..])
  }

  /** Inside a literal every character is copied. */
  lemma TailInside(s: string, i: nat, escaped: bool, pass: string -> string)
    requires i < |s|
    ensures var closes := !escaped && s[i] == '"';
            Tail(s, i, true, escaped, pass) == [s[i]] + Tail(s, i + 1, !closes, !escaped && s[i] == '\\', pass)
  {
    var t, r := s[i..], s[i + 1..];
    assert t[1..] == r && t[..1] == [s[i]];
    if escaped || s[i] != '"' {
      var m := LiteralRest(r, !escaped && s[i] == '\\');
      assert LiteralRest(t, escaped) == 1 + m;
      assert t[1 + m..] == r[m..];
      var tail := pass(r[m..]);
      assert t[..1 + m] + tail == [s[i]] + (r[..m] + tail);
    }
  }

  /** The length of the literal the text starts with. */
  function LiteralLength(s: string): (n: nat)
    requires s != "" && s[0] == '"'
    ensures 0 < n <= |s| && First(s, false) == First(s, true) == Literal(s[..n])
  {
    1 + LiteralRest(s[1..], false)
  }

  /** A pass that copies a leading literal enters it at the quote. */
  lemma TailQuote(s: string, i: nat, pass: string -> string)
    requires i < |s| && s[i] == '"'
    requires var n := LiteralLength(s[i..]); pass(s[i..]) == s[i..][..n] + pass(s[i..][n..])
    ensures Tail(s, i, false, false, pass) == [s[i]] + Tail(s, i + 1, true, false, pass)
  {
    var u, m := s[i..], LiteralRest(s[i + 1..], false);
    assert u[1..] == s[i + 1..];
    assert u[..1 + m] == [s[i]] + u[1..][..m];
    assert u[1..][m..] == u[1 + m..];
  }

  /** What is written and what is yet to be written stay the same together. */
  lemma Moved(b: string, c: string, from: string, to: string, whole: string)
    requires from == c + to && b + from == whole
    ensures (b + c) + to == whole
  {
  }

  lemma SliceSlice(s: string, i: nat, n: nat)
    requires i + n <= |s|
    ensures s[i..][n..] == s[i + n..] && s[i..][..n] == s[i..i + n]
  {
  }
}

/** Removing comments. */
module JsoncComments {
  import opened Common
  import opened JsoncTokens

  /** What stays of a comment: its newlines. The last character of a comment is never looked at, which
      matters only if the comment is not terminated. */
  function Newlines(s: string): string
  {
    if s == "" then "" else (if s[0] == '\n' then "\n" else "") + Newlines(s[1..])
  }

  function AsCode(s: string): seq<Token>
  {
    seq(|s|, i requires 0 <= i < |s| => Code(s[i]))
  }

  function Keep(t: Token): seq<Token>
  {
    match t
    case LineComment(_) => []
    case BlockComment(text) => if text == "" then [] else AsCode(Newlines(text[..|text| - 1]))
    case _ => [t]
  }

  function KeepAll(ts: seq<Token>): seq<Token>
  {
    if ts == [] then [] else Keep(ts[0]) + KeepAll(ts[1..])
  }

  /** The text without its comments. */
  function Strip(s: string): string
  {
    Text(KeepAll(Lex(s, true)))
  }

  // ---------- The pass as it is coded ----------

  lemma {:induction false} TextOfCode(s: string)
    ensures Text(AsCode(s)) == s
  {
    if s != "" {
      assert AsCode(s)[1..] == AsCode(s[1..]);
      TextOfCode(s[1..]);
    }
  }

  /** Stripping one token after the other. */
  lemma StripFirst(s: string, t: Token, rest: string)
    requires s != "" && t == First(s, true) && rest == s[|TokenText(t)|..]
    ensures Strip(s) == Text(Keep(t)) + Strip(rest)
  {
    assert Lex(s, true)[1..] == Lex(rest, true);
    TextConcat(Keep(t), KeepAll(Lex(rest, true)));
  }

  lemma TextOfOne(t: Token)
    ensures Text([t]) == TokenText(t)
  {
    TextCons(t, []);
    assert [t] + [] == [t];
    assert TokenText(t) + "" == TokenText(t);
  }

  lemma StripKept(s: string, t: Token, rest: string)
    requires s != "" && t == First(s, true) && rest == s[|TokenText(t)|..] && (t.Code? || t.Literal?)
    ensures Strip(s) == TokenText(t) + Strip(rest)
  {
    StripFirst(s, t, rest);
    TextOfOne(t);
  }

  lemma StripBlock(s: string, text: string, rest: string)
    requires s != "" && First(s, true) == BlockComment(text) && rest == s[|text|..]
    ensures Strip(s) == Newlines(text[..|text| - 1]) + Strip(rest)
  {
    StripFirst(s, BlockComment(text), rest);
    TextOfCode(Newlines(text[..|text| - 1]));
  }

  lemma StripLiteral(s: string)
    requires s != "" && s[0] == '"'
    ensures Strip(s) == s[..LiteralLength(s)] + Strip(s[LiteralLength(s)..])
  {
    StripKept(s, First(s, true), s[LiteralLength(s)..]);
  }

  lemma FirstIsCode(s: string, i: nat)
    requires i < |s| && s[i] != '"' && (s[i] == '/' && i + 1 < |s| ==> s[i + 1] != '/' && s[i + 1] != '*')
    ensures First(s[i..], true) == Code(s[i])
  {
    var t := s[i..];
    assert i + 1 < |s| ==> t[1] == s[i + 1];
    assert !("//" <= t) && !("/*" <= t);
  }

  lemma FirstIsLine(s: string, i: nat)
    requires i + 1 < |s| && s[i] == '/' && s[i + 1] == '/'
    ensures First(s[i..], true) == LineComment(s[i..][..LineRest(s[i..])])
  {
    assert s[i..][..2] == "//";
  }

  lemma FirstIsBlock(s: string, i: nat, end: nat)
    requires i + 1 < |s| && s[i] == '/' && s[i + 1] == '*' && end == i + 2 + BlockRest(s[i + 2..])
    ensures First(s[i..], true) == BlockComment(s[i..end])
  {
    assert s[i..][..2] == "/*";
    SliceSlice(s, i, 2);
    SliceSlice(s, i, end - i);
  }

  lemma TailCode(s: string, i: nat)
    requires i < |s| && s[i] != '"' && (s[i] == '/' && i + 1 < |s| ==> s[i + 1] != '/' && s[i + 1] != '*')
    ensures Tail(s, i, false, false, Strip) == [s[i]] + Tail(s, i + 1, false, false, Strip)
  {
    FirstIsCode(s, i);
    SliceSlice(s, i, 1);
    StripKept(s[i..], Code(s[i]), s[i + 1..]);
  }

  lemma TailLine(s: string, i: nat)
    requires i + 1 < |s| && s[i] == '/' && s[i + 1] == '/'
    ensures Tail(s, i, false, false, Strip) == Tail(s, i + LineRest(s[i..]), false, false, Strip)
  {
    var n := LineRest(s[i..]);
    FirstIsLine(s, i);
    SliceSlice(s, i, n);
    StripFirst(s[i..], LineComment(s[i..][..n]), s[i + n..]);
  }

  lemma TailBlock(s: string, i: nat, end: nat)
    requires i + 1 < |s| && s[i] == '/' && s[i + 1] == '*' && end == i + 2 + BlockRest(s[i + 2..])
    ensures Tail(s, i, false, false, Strip) == Newlines(s[i..end - 1]) + Tail(s, end, false, false, Strip)
  {
    FirstIsBlock(s, i, end);
    SliceSlice(s, i, end - i);
    StripBlock(s[i..], s[i..end], s[end..]);
    assert s[i..end][..end - i - 1] == s[i..end - 1];
  }

  /** stripJSONCComments */
  method StripJSONCComments(s: string) returns (b: string)
    ensures b == Strip(s)
  {
    b := "";
    var inString, escaped := false, false;
    var i: nat := 0;
    assert s[0..] == s;
    while i < |s|
      invariant i <= |s| && (!inString ==> !escaped)
      invariant b + Tail(s, i, inString, escaped, Strip) == Strip(s)
      decreases |s| - i
    {
      var ch := s[i];
      if inString {
        ghost var from := Tail(s, i, true, escaped, Strip);
        TailInside(s, i, escaped, Strip);
        if escaped {
          escaped := false;
        } else if ch == '\\' {
          escaped := true;
        } else if ch == '"' {
          inString := false;
        }
        Moved(b, [ch], from, Tail(s, i + 1, inString, escaped, Strip), Strip(s));
        b := b + [ch];
        i := i + 1;
      } else if ch == '"' {
        StripLiteral(s[i..]);
        TailQuote(s, i, Strip);
        Moved(b, [ch], Tail(s, i, false, false, Strip), Tail(s, i + 1, true, false, Strip), Strip(s));
        inString := true;
        b := b + [ch];
        i := i + 1;
      } else if ch == '/' && i + 1 < |s| && s[i + 1] == '/' {
        i, b := SkipLine(s, i, b);
      } else if ch == '/' && i + 1 < |s| && s[i + 1] == '*' {
        i, b := SkipBlock(s, i, b);
      } else {
        TailCode(s, i);
        Moved(b, [ch], Tail(s, i, false, false, Strip), Tail(s, i + 1, false, false, Strip), Strip(s));
        b := b + [ch];
        i := i + 1;
      }
    }
    assert Tail(s, |s|, inString, escaped, Strip) == "";
  }

  /** The inner loop over a line comment. */
  method LineEnd(s: string, i0: nat) returns (i: nat)
    requires i0 <= |s|
    ensures i == i0 + LineRest(s[i0..])
  {
    i := i0;
    while i < |s| && s[i] != '\n'
      invariant i0 <= i <= |s|
      invariant i + LineRest(s[i..]) == i0 + LineRest(s[i0..])
    {
      SliceSlice(s, i, 1);
      i := i + 1;
    }
    assert LineRest(s[i..]) == 0;
  }

  lemma LineIsLonger(s: string, i: nat)
    requires i < |s| && s[i] != '\n'
    ensures LineRest(s[i..]) > 0
  {
  }

  lemma TailNewline(s: string, i0: nat, i: nat)
    requires i0 <= |s| && i == i0 + LineRest(s[i0..]) < |s|
    ensures Tail(s, i, false, false, Strip) == [s[i]] + Tail(s, i + 1, false, false, Strip)
  {
    LineEndsAtNewline(s, i0, i);
    TailCode(s, i);
  }

  /** A line comment and the newline after it, if any. */
  method SkipLine(s: string, i0: nat, b0: string) returns (i: nat, b: string)
    requires i0 + 1 < |s| && s[i0] == '/' && s[i0 + 1] == '/'
    ensures i0 < i <= |s|
    ensures b + Tail(s, i, false, false, Strip) == b0 + Tail(s, i0, false, false, Strip)
  {
    LineIsLonger(s, i0);
    i := LineEnd(s, i0);
    TailLine(s, i0);
    b := b0;
    if i < |s| {
      TailNewline(s, i0, i);
      Moved(b, [s[i]], Tail(s, i, false, false, Strip), Tail(s, i + 1, false, false, Strip),
            b + Tail(s, i0, false, false, Strip));
      b := b + [s[i]];
      i := i + 1;
    }
  }

  lemma LineEndsAtNewline(s: string, i0: nat, i: nat)
    requires i0 <= |s| && i == i0 + LineRest(s[i0..]) < |s|
    ensures s[i] == '\n'
  {
    LineRestStops(s[i0..]);
    assert s[i0..][i - i0] == s[i];
  }

  /** The scan of the block comment at `i0` has come to `i` and kept the newlines up to there. */
  ghost predicate Scanning(s: string, i0: nat, i: nat, kept: string)
  {
    && i0 + 2 <= i <= |s| && (i == |s| ==> i == i0 + 2)
    && i + BlockRest(s[i..]) == i0 + 2 + BlockRest(s[i0 + 2..])
    && kept == Newlines(s[i0..i])
  }

  lemma ScanBegins(s: string, i0: nat)
    requires i0 + 1 < |s| && s[i0] == '/' && s[i0 + 1] == '*'
    ensures Scanning(s, i0, i0 + 2, "")
  {
    BlockBegins(s, i0);
  }

  lemma ScanEnds(s: string, i0: nat, i: nat, kept: string)
    requires Scanning(s, i0, i, kept) && s[i0] == '/' && s[i0 + 1] == '*'
    requires !(i + 1 < |s| && !(s[i] == '*' && s[i + 1] == '/'))
    ensures var end := if i + 2 > |s| then |s| else i + 2;
            end == i0 + 2 + BlockRest(s[i0 + 2..]) && kept == Newlines(s[i0..end - 1])
  {
    BlockEnds(s, i, i0);
  }

  lemma ScanStep(s: string, i0: nat, i: nat, kept: string)
    requires Scanning(s, i0, i, kept)
    requires i + 1 < |s| && !(s[i] == '*' && s[i + 1] == '/')
    ensures Scanning(s, i0, i + 1, kept + if s[i] == '\n' then "\n" else "")
  {
    NewlinesStep(s, i0, i);
    BlockStep(s, i);
  }

  /** The inner loop over a block comment: where it ends, and the newlines in it. */
  method ScanBlock(s: string, i0: nat) returns (i: nat, kept: string)
    requires i0 + 1 < |s| && s[i0] == '/' && s[i0 + 1] == '*'
    ensures i0 + 2 <= i <= |s| && i == i0 + 2 + BlockRest(s[i0 + 2..])
    ensures kept == Newlines(s[i0..i - 1])
  {
    ScanBegins(s, i0);
    i, kept := i0 + 2, "";
    while i + 1 < |s| && !(s[i] == '*' && s[i + 1] == '/')
      invariant Scanning(s, i0, i, kept)
    {
      ScanStep(s, i0, i, kept);
      if s[i] == '\n' {
        kept := kept + "\n";
      } else {
        assert kept + "" == kept;
      }
      i := i + 1;
    }
    ScanEnds(s, i0, i, kept);
    i := i + 2;
    if i > |s| {
      i := |s|;
    }
  }

  lemma BlockBegins(s: string, i0: nat)
    requires i0 + 1 < |s| && s[i0] == '/' && s[i0 + 1] == '*'
    ensures Newlines(s[i0..i0 + 2]) == ""
  {
    assert s[i0..i0 + 2] == "/*";
    assert "/*"[1..] == "*" && "*"[1..] == "";
  }

  lemma NewlinesStep(s: string, i0: nat, i: nat)
    requires i0 <= i < |s|
    ensures Newlines(s[i0..i + 1]) == Newlines(s[i0..i]) + if s[i] == '\n' then "\n" else ""
  {
    NewlinesSnoc(s[i0..i], s[i]);
    assert s[i0..i + 1] == s[i0..i] + [s[i]];
  }

  /** A block comment; its newlines are kept. */
  method SkipBlock(s: string, i0: nat, b0: string) returns (i: nat, b: string)
    requires i0 + 1 < |s| && s[i0] == '/' && s[i0 + 1] == '*'
    ensures i0 < i <= |s|
    ensures b + Tail(s, i, false, false, Strip) == b0 + Tail(s, i0, false, false, Strip)
  {
    var kept;
    i, kept := ScanBlock(s, i0);
    TailBlock(s, i0, i);
    Regroup(b0, kept, Tail(s, i, false, false, Strip));
    b := b0 + kept;
  }

  lemma BlockStep(s: string, i: nat)
    requires i + 1 < |s| && !(s[i] == '*' && s[i + 1] == '/')
    ensures BlockRest(s[i..]) == 1 + BlockRest(s[i + 1..])
  {
    assert s[i..][1..] == s[i + 1..] && s[i..][1] == s[i + 1];
    assert !("*/" <= s[i..]);
  }

  /** Where the scan stops, the comment has one or two characters left, or none if it just began. */
  lemma BlockEnds(s: string, i: nat, i0: nat)
    requires i0 + 2 <= i <= |s| && s[i0] == '/' && s[i0 + 1] == '*' && (i == |s| ==> i == i0 + 2)
    requires !(i + 1 < |s| && !(s[i] == '*' && s[i + 1] == '/'))
    ensures var end := i + BlockRest(s[i..]);
            && end == (if i + 2 > |s| then |s| else i + 2)
            && Newlines(s[i0..end - 1]) == Newlines(s[i0..i])
  {
    if i + 1 < |s| {
      assert s[i..][..2] == "*/";
      NewlinesStep(s, i0, i);
    } else if i + 1 == |s| {
      LastOfBlock(s[i..]);
    } else {
      NewlinesStep(s, i0, i - 1);
      assert s[i..] == "";
    }
  }

  lemma LastOfBlock(s: string)
    requires |s| == 1
    ensures BlockRest(s) == 1
  {
    assert s[1..] == "";
  }

  lemma {:induction false} NewlinesSnoc(s: string, c: char)
    ensures Newlines(s + [c]) == Newlines(s) + if c == '\n' then "\n" else ""
  {
    if s != "" {
      assert (s + [c])[1..] == s[1..] + [c];
      NewlinesSnoc(s[1..], c);
    }
  }

  // ---------- What stripping means ----------

  /** A slash that is code is never followed by a comment, nor by what would make it one. */
  lemma AfterSlash(s: string)
    requires s != "" && First(s, true) == Code('/') && s[1..] != ""
    ensures var t := First(s[1..], true); t.Literal? || (t.Code? && t.c != '/' && t.c != '*')
  {
    assert s[0] == '/';
    var next := s[1..];
    assert next[0] == s[1];
    assert next[0] == '/' ==> "//" <= s;
    assert next[0] == '*' ==> "/*" <= s;
  }

  lemma NewlinesAreNewlines(s: string)
    ensures forall i :: 0 <= i < |Newlines(s)| ==> Newlines(s)[i] == '\n'
  {
  }

  lemma KeepFirst(s: string)
    requires s != "" && (First(s, true).Code? || First(s, true).Literal?)
    ensures KeepAll(Lex(s, true)) != [] && KeepAll(Lex(s, true))[0] == First(s, true)
  {
    assert Lex(s, true)[0] == First(s, true);
  }

  ghost predicate Clean(ts: seq<Token>)
  {
    Proper(ts) && NoCommentStarts(ts)
  }

  lemma CleanCons(t: Token, ts: seq<Token>)
    requires Clean(ts) && ProperToken(t, ts == [])
    requires ts != [] ==> !StartsComment(t, ts[0])
    ensures Clean([t] + ts)
  {
    ProperCons(t, ts);
    var all := [t] + ts;
    forall i | 0 < i < |all|
      ensures !StartsComment(all[i - 1], all[i])
    {
      if i > 1 {
        assert !StartsComment(ts[i - 2], ts[i - 1]);
      }
    }
  }

  lemma {:induction false} CleanNewlines(n: string, ts: seq<Token>)
    requires Clean(ts) && forall i :: 0 <= i < |n| ==> n[i] == '\n'
    ensures Clean(AsCode(n) + ts)
  {
    if n == "" {
      assert AsCode(n) + ts == ts;
    } else {
      CleanNewlines(n[1..], ts);
      CleanCons(Code(n[0]), AsCode(n[1..]) + ts);
      assert AsCode(n) + ts == [Code(n[0])] + (AsCode(n[1..]) + ts);
    }
  }

  lemma CleanCode(s: string, rest: string)
    requires s != "" && First(s, true).Code? && rest == s[1..]
    requires Clean(KeepAll(Lex(rest, true)))
    ensures Clean([First(s, true)] + KeepAll(Lex(rest, true)))
  {
    var t := First(s, true);
    if t == Code('/') && rest != "" {
      AfterSlash(s);
      KeepFirst(rest);
    }
    CleanCons(t, KeepAll(Lex(rest, true)));
  }

  lemma CleanLiteral(s: string, kept: seq<Token>)
    requires s != "" && First(s, true).Literal?
    requires kept != [] ==> |First(s, true).text| < |s|
    requires Clean(kept)
    ensures Clean([First(s, true)] + kept)
  {
    var t := First(s, true);
    LiteralIsCut(s[1..], false);
    assert t.text[1..] == s[1..][..|t.text| - 1];
    CleanCons(t, kept);
  }

  lemma CleanBlock(text: string, kept: seq<Token>)
    requires Clean(kept)
    ensures Clean(Keep(BlockComment(text)) + kept)
  {
    if text == "" {
      assert [] + kept == kept;
    } else {
      NewlinesAreNewlines(text[..|text| - 1]);
      CleanNewlines(Newlines(text[..|text| - 1]), kept);
    }
  }

  lemma KeepAllFirst(s: string, t: Token, rest: string)
    requires s != "" && t == First(s, true) && rest == s[|TokenText(t)|..]
    ensures KeepAll(Lex(s, true)) == Keep(t) + KeepAll(Lex(rest, true))
  {
    assert Lex(s, true)[1..] == Lex(rest, true);
  }

  /** What is kept reads as code and string literals, and contains no comment. */
  lemma {:induction false} KeptIsClean(s: string)
    ensures Clean(KeepAll(Lex(s, true)))
    decreases |s|
  {
    if s != "" {
      var t := First(s, true);
      var rest := s[|TokenText(t)|..];
      KeptIsClean(rest);
      KeepAllFirst(s, t, rest);
      match t
      case LineComment(_) =>
        assert [] + KeepAll(Lex(rest, true)) == KeepAll(Lex(rest, true));
      case BlockComment(text) => CleanBlock(text, KeepAll(Lex(rest, true)));
      case Code(_) => CleanCode(s, rest);
      case Literal(text) => CleanLiteral(s, KeepAll(Lex(rest, true)));
    }
  }

  /** Lexing the stripped text finds exactly the kept tokens, whether or not comments are looked for. */
  lemma LexOfStripped(s: string, comments: bool)
    ensures Lex(Strip(s), comments) == KeepAll(Lex(s, true))
  {
    KeptIsClean(s);
    LexOfText(KeepAll(Lex(s, true)), comments);
  }

  lemma {:induction false} KeepAllKept(ts: seq<Token>)
    requires Proper(ts)
    ensures KeepAll(ts) == ts
  {
    if ts != [] {
      assert forall i :: 0 <= i < |ts[1..]| ==> ts[1..][i] == ts[i + 1];
      KeepAllKept(ts[1..]);
      assert ts == [ts[0]] + ts[1..];
    }
  }

  /** Stripping twice is stripping once. */
  lemma StripIsIdempotent(s: string)
    ensures Strip(Strip(s)) == Strip(s)
  {
    KeptIsClean(s);
    LexOfStripped(s, true);
    KeepAllKept(KeepAll(Lex(s, true)));
  }

  lemma {:induction false} LiteralsOfKept(ts: seq<Token>)
    ensures Literals(KeepAll(ts)) == Literals(ts)
  {
    if ts != [] {
      LiteralsOfKept(ts[1..]);
      LiteralsConcat(Keep(ts[0]), KeepAll(ts[1..]));
      LiteralsOfKeep(ts[0]);
    }
  }

  lemma LiteralsOfKeep(t: Token)
    ensures Literals(Keep(t)) == if t.Literal? then [t.text] else []
  {
    match t
    case BlockComment(text) =>
      if text != "" {
        NoLiteralsInCode(Newlines(text[..|text| - 1]));
      }
    case _ =>
  }

  lemma {:induction false} NoLiteralsInCode(s: string)
    ensures Literals(AsCode(s)) == []
  {
    if s != "" {
      assert AsCode(s)[1..] == AsCode(s[1..]);
      NoLiteralsInCode(s[1..]);
    }
  }

  /** The string literals come through unchanged and in order. */
  lemma StripKeepsLiterals(s: string, comments: bool)
    ensures Literals(Lex(Strip(s), comments)) == Literals(Lex(s, true))
  {
    LexOfStripped(s, comments);
    LiteralsOfKept(Lex(s, true));
  }

  function NewlineCount(s: string): nat
  {
    if s == "" then 0 else (if s[0] == '\n' then 1 else 0) + NewlineCount(s[1..])
  }

  lemma {:induction false} NewlineCountConcat(a: string, b: string)
    ensures NewlineCount(a + b) == NewlineCount(a) + NewlineCount(b)
  {
    if a == "" {
      assert a + b == b;
    } else {
      assert (a + b)[1..] == a[1..] + b;
      NewlineCountConcat(a[1..], b);
    }
  }

  lemma {:induction false} NewlinesCount(s: string)
    ensures NewlineCount(Newlines(s)) == NewlineCount(s)
  {
    if s != "" {
      NewlinesCount(s[1..]);
      NewlineCountConcat(if s[0] == '\n' then "\n" else "", Newlines(s[1..]));
    }
  }

  /** A block comment that ends in a newline, which only one that is not terminated can. */
  predicate LosesNewline(t: Token)
  {
    t.BlockComment? && t.text != "" && t.text[|t.text| - 1] == '\n'
  }

  function Lost(ts: seq<Token>): nat
  {
    if ts == [] then 0 else (if LosesNewline(ts[0]) then 1 else 0) + Lost(ts[1..])
  }

  predicate LineEnds(t: Token)
  {
    t.LineComment? ==> '\n' !in t.text
  }

  lemma {:induction false} NoNewlines(s: string)
    requires '\n' !in s
    ensures NewlineCount(s) == 0
  {
    if s != "" {
      assert '\n' !in s[1..];
      NoNewlines(s[1..]);
    }
  }

  lemma CountLast(text: string)
    requires text != ""
    ensures NewlineCount(text) == NewlineCount(text[..|text| - 1]) + if text[|text| - 1] == '\n' then 1 else 0
  {
    var body, last := text[..|text| - 1], [text[|text| - 1]];
    NewlineCountConcat(body, last);
    assert text == body + last && last[1..] == "";
  }

  lemma BlockCountsNewlines(text: string)
    requires text != ""
    ensures NewlineCount(Text(Keep(BlockComment(text)))) + Lost([BlockComment(text)]) == NewlineCount(text)
  {
    TextOfCode(Newlines(text[..|text| - 1]));
    NewlinesCount(text[..|text| - 1]);
    CountLast(text);
  }

  lemma KeepCountsNewlines(t: Token)
    requires LineEnds(t) && TokenText(t) != ""
    ensures NewlineCount(Text(Keep(t))) + Lost([t]) == NewlineCount(TokenText(t))
  {
    match t
    case LineComment(text) => NoNewlines(text);
    case BlockComment(text) => BlockCountsNewlines(text);
    case _ => TextOfOne(t);
  }

  lemma CountStep(t: Token, ts: seq<Token>)
    ensures NewlineCount(Text([t] + ts)) == NewlineCount(TokenText(t)) + NewlineCount(Text(ts))
    ensures NewlineCount(Text(Keep(t) + KeepAll(ts))) == NewlineCount(Text(Keep(t))) + NewlineCount(Text(KeepAll(ts)))
  {
    TextCons(t, ts);
    NewlineCountConcat(TokenText(t), Text(ts));
    TextConcat(Keep(t), KeepAll(ts));
    NewlineCountConcat(Text(Keep(t)), Text(KeepAll(ts)));
  }

  lemma LostStep(t: Token, ts: seq<Token>)
    ensures Lost([t] + ts) == Lost([t]) + Lost(ts)
  {
    assert ([t] + ts)[1..] == ts && [t][1..] == [];
  }

  lemma FirstLineEnds(s: string)
    requires s != ""
    ensures LineEnds(First(s, true))
  {
    LineRestStops(s);
  }

  /** Stripping loses exactly the newlines that end unterminated comments. */
  lemma {:induction false} StripCountsNewlines(s: string)
    ensures NewlineCount(Strip(s)) + Lost(Lex(s, true)) == NewlineCount(Text(Lex(s, true)))
    decreases |s|
  {
    if s != "" {
      var t := First(s, true);
      var rest := s[|TokenText(t)|..];
      StripCountsNewlines(rest);
      KeepAllFirst(s, t, rest);
      FirstLineEnds(s);
      KeepCountsNewlines(t);
      CountStep(t, Lex(rest, true));
      LostStep(t, Lex(rest, true));
    }
  }

  lemma {:induction false} NothingLostIff(ts: seq<Token>)
    ensures Lost(ts) == 0 <==> forall t :: t in ts ==> !LosesNewline(t)
  {
    if ts != [] {
      NothingLostIff(ts[1..]);
      assert ts == [ts[0]] + ts[1..];
    }
  }

  /** The lines keep their numbers exactly if no comment is left open at a newline. */
  lemma StripKeepsLinesIff(s: string)
    ensures NewlineCount(Strip(s)) == NewlineCount(s) <==> forall t :: t in Lex(s, true) ==> !LosesNewline(t)
  {
    StripCountsNewlines(s);
    LexIsLossless(s, true);
    NothingLostIff(Lex(s, true));
  }

  lemma OpenCommentLosesALine(s: string)
    requires s == "/*\n"
    ensures Strip(s) == "" && NewlineCount(s) == 1
  {
    BlockBegins(s, 0);
    LastOfBlock(s[2..]);
    assert s[0..] == s == s[0..3] && s[0..2] == s[..2] && s[3..] == "";
    FirstIsBlock(s, 0, 3);
    StripBlock(s, s, "");
    NewlinesCount(s[..2]);
    CountLast(s);
  }
}

/** Removing trailing commas. */
module JsoncCommas {
  import opened Common
  import opened JsoncTokens

  predicate IsSpace(c: char)
  {
    c == ' ' || c == '\t' || c == '\r' || c == '\n'
  }

  predicate IsCloser(t: Token)
  {
    t == Code('}') || t == Code(']')
  }

  /** The first token that is not whitespace, if there is one. */
  function Solid(ts: seq<Token>): Option<Token>
  {
    if ts == [] then None
    else if ts[0].Code? && IsSpace(ts[0].c) then Solid(ts[1..])
    else Some(ts[0])
  }

  /** The tokens start with a comma that is followed only by whitespace and a closing bracket. */
  predicate Trailing(ts: seq<Token>)
  {
    ts != [] && ts[0] == Code(',') && Solid(ts[1..]).Some? && IsCloser(Solid(ts[1..]).value)
  }

  function DropCommas(ts: seq<Token>): seq<Token>
  {
    if ts == [] then []
    else (if Trailing(ts) then [] else [ts[0]]) + DropCommas(ts[1..])
  }

  /** The text without its trailing commas. */
  function Strip(s: string): string
  {
    Text(DropCommas(Lex(s, false)))
  }

  lemma {:induction false} DroppedIsProper(ts: seq<Token>)
    requires Proper(ts)
    ensures Proper(DropCommas(ts))
  {
    if ts != [] {
      var rest := ts[1..];
      assert forall i :: 0 <= i < |rest| ==> rest[i] == ts[i + 1];
      DroppedIsProper(rest);
      if rest == [] {
        assert DropCommas(rest) == [];
      }
    }
  }

  lemma {:induction false} LiteralsOfDropped(ts: seq<Token>)
    ensures Literals(DropCommas(ts)) == Literals(ts)
  {
    if ts != [] {
      LiteralsOfDropped(ts[1..]);
      var first: seq<Token> := if Trailing(ts) then [] else [ts[0]];
      LiteralsConcat(first, DropCommas(ts[1..]));
    }
  }

  /** Lexing the result finds the remaining tokens, and with them all string literals. */
  lemma LexOfStripped(s: string)
    ensures Lex(Strip(s), false) == DropCommas(Lex(s, false))
    ensures Literals(Lex(Strip(s), false)) == Literals(Lex(s, false))
  {
    LexIsProper(s);
    DroppedIsProper(Lex(s, false));
    LexOfText(DropCommas(Lex(s, false)), false);
    LiteralsOfDropped(Lex(s, false));
  }

  // ---------- When trailing commas are left ----------

  ghost predicate HasTrailing(ts: seq<Token>)
  {
    exists i :: 0 <= i < |ts| && Trailing(ts[i..])
  }

  /** Two commas, the second of which is trailing. */
  predicate Stacked(ts: seq<Token>)
  {
    ts != [] && ts[0] == Code(',') && Trailing(FromSolid(ts[1..]))
  }

  /** The tokens from the first that is not whitespace. */
  function FromSolid(ts: seq<Token>): (r: seq<Token>)
    ensures Solid(ts) == if r == [] then None else Some(r[0])
  {
    if ts == [] then []
    else if ts[0].Code? && IsSpace(ts[0].c) then FromSolid(ts[1..])
    else ts
  }

  ghost predicate HasStacked(ts: seq<Token>)
  {
    exists i :: 0 <= i < |ts| && Stacked(ts[i..])
  }

  lemma HasCons(ts: seq<Token>)
    requires ts != []
    ensures HasTrailing(ts) <==> Trailing(ts) || HasTrailing(ts[1..])
    ensures HasStacked(ts) <==> Stacked(ts) || HasStacked(ts[1..])
  {
    var rest := ts[1..];
    assert ts[0..] == ts;
    assert forall i :: 0 <= i < |rest| ==> rest[i..] == ts[i + 1..];
    if HasTrailing(ts) && !Trailing(ts) {
      var i :| 0 <= i < |ts| && Trailing(ts[i..]);
      assert rest[i - 1..] == ts[i..];
    }
    if HasStacked(ts) && !Stacked(ts) {
      var i :| 0 <= i < |ts| && Stacked(ts[i..]);
      assert rest[i - 1..] == ts[i..];
    }
    if HasTrailing(rest) {
      var i :| 0 <= i < |rest| && Trailing(rest[i..]);
      assert Trailing(ts[i + 1..]);
    }
    if HasStacked(rest) {
      var i :| 0 <= i < |rest| && Stacked(rest[i..]);
      assert Stacked(ts[i + 1..]);
    }
  }

  /** After dropping, the first solid token is the same unless it was a trailing comma; then it is the
      closing bracket behind it. */
  lemma {:induction false} SolidOfDropped(ts: seq<Token>)
    ensures Solid(DropCommas(ts)) ==
            if Trailing(FromSolid(ts)) then Solid(FromSolid(ts)[1..]) else Solid(ts)
  {
    if ts != [] {
      var rest := ts[1..];
      if ts[0].Code? && IsSpace(ts[0].c) {
        SolidOfDropped(rest);
        assert DropCommas(ts)[1..] == DropCommas(rest);
      } else if Trailing(ts) {
        SolidOfDropped(rest);
        assert DropCommas(ts) == DropCommas(rest);
      } else {
        assert DropCommas(ts)[0] == ts[0];
      }
    }
  }

  /** A trailing comma is left exactly if two commas were stacked in front of a closing bracket. */
  lemma {:induction false} TrailingLeftIff(ts: seq<Token>)
    ensures HasTrailing(DropCommas(ts)) <==> HasStacked(ts)
  {
    if ts != [] {
      var rest := ts[1..];
      TrailingLeftIff(rest);
      HasCons(ts);
      if Trailing(ts) {
        assert DropCommas(ts) == DropCommas(rest);
        assert !Stacked(ts);
      } else {
        var out := DropCommas(ts);
        assert out[1..] == DropCommas(rest) && out[0] == ts[0];
        HasCons(out);
        SolidOfDropped(rest);
      }
    }
  }

  lemma TextOfThree(a: char, b: char, c: char)
    ensures Text([Code(a), Code(b), Code(c)]) == [a, b, c]
  {
    TextCons(Code(c), []);
    TextCons(Code(b), [Code(c)]);
    TextCons(Code(a), [Code(b), Code(c)]);
    assert [Code(c)] + [] == [Code(c)];
  }

  lemma TwoCommasAreStacked(ts: seq<Token>)
    requires ts == [Code(','), Code(','), Code(']')]
    ensures HasStacked(ts)
  {
    assert ts[1..] == [Code(','), Code(']')];
    assert ts[1..][1..] == [Code(']')];
    assert ts[0..] == ts;
  }

  /** Of two commas in front of a bracket one is left. */
  lemma StackedCommaIsLeft()
    ensures HasTrailing(Lex(Strip(",,]"), false))
  {
    var ts := [Code(','), Code(','), Code(']')];
    TextOfThree(',', ',', ']');
    LexOfText(ts, false);
    TwoCommasAreStacked(ts);
    TrailingLeftIff(ts);
    LexOfStripped(",,]");
  }

  // ---------- The pass as it is coded ----------

  /** The first position at or after `i` that is not whitespace. */
  function Skip(s: string, i: nat): (j: nat)
    requires i <= |s|
    ensures i <= j <= |s|
    decreases |s| - i
  {
    if i < |s| && IsSpace(s[i]) then Skip(s, i + 1) else i
  }

  predicate ClosesAfter(s: string, i: nat)
    requires i <= |s|
  {
    Skip(s, i) < |s| && (s[Skip(s, i)] == '}' || s[Skip(s, i)] == ']')
  }

  /** Looking at the characters after a comma is looking at the tokens after it. */
  lemma {:induction false} LookAhead(s: string, i: nat)
    requires i <= |s|
    ensures var next := Solid(Lex(s[i..], false));
            ClosesAfter(s, i) <==> next.Some? && IsCloser(next.value)
    decreases |s| - i
  {
    if i < |s| {
      var t := First(s[i..], false);
      assert Lex(s[i..], false)[0] == t;
      if IsSpace(s[i]) {
        assert t == Code(s[i]);
        assert s[i..][1..] == s[i + 1..];
        assert Lex(s[i..], false)[1..] == Lex(s[i + 1..], false);
        LookAhead(s, i + 1);
      }
    }
  }

  lemma StripFirst(s: string, t: Token, rest: string)
    requires s != "" && t == First(s, false) && rest == s[|TokenText(t)|..]
    ensures Strip(s) == (if Trailing([t] + Lex(rest, false)) then "" else TokenText(t)) + Strip(rest)
  {
    var ts := Lex(s, false);
    assert ts == [t] + Lex(rest, false) && ts[1..] == Lex(rest, false);
    var first: seq<Token> := if Trailing(ts) then [] else [t];
    TextConcat(first, DropCommas(Lex(rest, false)));
    TextCons(t, []);
    assert [t] + [] == [t];
    assert TokenText(t) + "" == TokenText(t);
  }

  lemma StripKept(s: string, t: Token, rest: string)
    requires s != "" && t == First(s, false) && rest == s[|TokenText(t)|..] && t.Literal?
    ensures Strip(s) == TokenText(t) + Strip(rest)
  {
    assert ([t] + Lex(rest, false))[0] == t;
    StripFirst(s, t, rest);
  }

  lemma StripLiteral(s: string)
    requires s != "" && s[0] == '"'
    ensures Strip(s) == s[..LiteralLength(s)] + Strip(s[LiteralLength(s)..])
  {
    StripKept(s, First(s, false), s[LiteralLength(s)..]);
  }

  lemma TrailingIff(s: string, i: nat)
    requires i < |s|
    ensures Trailing([Code(s[i])] + Lex(s[i + 1..], false)) <==> s[i] == ',' && ClosesAfter(s, i + 1)
  {
    var ts := [Code(s[i])] + Lex(s[i + 1..], false);
    assert ts[1..] == Lex(s[i + 1..], false);
    LookAhead(s, i + 1);
  }

  lemma TailCode(s: string, i: nat)
    requires i < |s| && s[i] != '"'
    ensures Tail(s, i, false, false, Strip) ==
            (if s[i] == ',' && ClosesAfter(s, i + 1) then "" else [s[i]]) + Tail(s, i + 1, false, false, Strip)
  {
    SliceSlice(s, i, 1);
    TrailingIff(s, i);
    StripFirst(s[i..], Code(s[i]), s[i + 1..]);
  }

  method SkipSpace(s: string, i: nat) returns (j: nat)
    requires i <= |s|
    ensures j == Skip(s, i)
  {
    j := i;
    while j < |s| && (s[j] == ' ' || s[j] == '\t' || s[j] == '\r' || s[j] == '\n')
      invariant i <= j <= |s| && Skip(s, j) == Skip(s, i)
    {
      j := j + 1;
    }
  }

  /** The look-ahead after a comma. */
  method IsTrailingComma(s: string, i: nat) returns (trailing: bool)
    requires i < |s|
    ensures trailing == (s[i] == ',' && ClosesAfter(s, i + 1))
  {
    if s[i] == ',' {
      var j := SkipSpace(s, i + 1);
      return j < |s| && (s[j] == '}' || s[j] == ']');
    }
    return false;
  }

  /** A character outside literals: a comma is skipped if only whitespace separates it from a bracket. */
  method CopyUnlessTrailing(s: string, i: nat, b0: string) returns (b: string)
    requires i < |s| && s[i] != '"'
    ensures b + Tail(s, i + 1, false, false, Strip) == b0 + Tail(s, i, false, false, Strip)
  {
    var trailing := IsTrailingComma(s, i);
    var written := if trailing then "" else [s[i]];
    TailCode(s, i);
    Moved(b0, written, Tail(s, i, false, false, Strip), Tail(s, i + 1, false, false, Strip),
          b0 + Tail(s, i, false, false, Strip));
    b := b0 + written;
  }

  /** stripJSONCTrailingCommas */
  method StripJSONCTrailingCommas(s: string) returns (b: string)
    ensures b == Strip(s)
  {
    b := "";
    var inString, escaped := false, false;
    var i: nat := 0;
    assert s[0..] == s;
    while i < |s|
      invariant i <= |s| && (!inString ==> !escaped)
      invariant b + Tail(s, i, inString, escaped, Strip) == Strip(s)
      decreases |s| - i
    {
      var ch := s[i];
      if inString {
        ghost var from := Tail(s, i, true, escaped, Strip);
        TailInside(s, i, escaped, Strip);
        if escaped {
          escaped := false;
        } else if ch == '\\' {
          escaped := true;
        } else if ch == '"' {
          inString := false;
        }
        Moved(b, [ch], from, Tail(s, i + 1, inString, escaped, Strip), Strip(s));
        b := b + [ch];
      } else if ch == '"' {
        StripLiteral(s[i..]);
        TailQuote(s, i, Strip);
        Moved(b, [ch], Tail(s, i, false, false, Strip), Tail(s, i + 1, true, false, Strip), Strip(s));
        inString := true;
        b := b + [ch];
      } else {
        b := CopyUnlessTrailing(s, i, b);
      }
      i := i + 1;
    }
    assert Tail(s, |s|, inString, escaped, Strip) == "";
  }
}
