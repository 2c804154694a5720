/**
 The two passes one after the other, as the worker configuration is read: what they do to comments,
 literals and commas together, and that they leave JSON text (RFC 8259) alone.
 */
module JsoncPasses {
  import opened Common
  import opened JsoncTokens
  import Comments = JsoncComments
  import Commas = JsoncCommas

  function ToJson(s: string): string
  {
    Commas.Strip(Comments.Strip(s))
  }

  /** The text handed to the JSON parser. */
  method StripJSONC(s: string) returns (json: string)
    ensures json == ToJson(s)
  {
    var uncommented := Comments.StripJSONCComments(s);
    json := Commas.StripJSONCTrailingCommas(uncommented);
  }

  /** Both scans agree on what is inside a string: what the second pass sees as tokens is what the first
      one kept. */
  lemma TokensOfJson(s: string)
    ensures Lex(ToJson(s), false) == Commas.DropCommas(Comments.KeepAll(Lex(s, true)))
    ensures Literals(Lex(ToJson(s), false)) == Literals(Lex(s, true))
  {
    Comments.LexOfStripped(s, false);
    Comments.StripKeepsLiterals(s, false);
    Commas.LexOfStripped(Comments.Strip(s));
  }

  // ---------- Trailing commas across comments ----------

  predicate Blank(t: Token)
  {
    t.LineComment? || t.BlockComment? || (t.Code? && Commas.IsSpace(t.c))
  }

  /** The first token that is neither whitespace nor a comment, if there is one. */
  function SolidPastComments(ts: seq<Token>): Option<Token>
  {
    if ts == [] then None else if Blank(ts[0]) then SolidPastComments(ts[1..]) else Some(ts[0])
  }

  /** Two commas separated only by whitespace and comments. */
  ghost predicate AdjacentCommas(ts: seq<Token>)
  {
    exists i :: 0 <= i < |ts| && ts[i] == Code(',') && SolidPastComments(ts[i + 1..]) == Some(Code(','))
  }

  lemma {:induction false} SolidOfNewlines(n: string, ts: seq<Token>)
    requires forall i :: 0 <= i < |n| ==> n[i] == '\n'
    ensures Commas.Solid(Comments.AsCode(n) + ts) == Commas.Solid(ts)
    ensures Commas.HasStacked(Comments.AsCode(n) + ts) ==> Commas.HasStacked(ts)
  {
    var all := Comments.AsCode(n) + ts;
    if n == "" {
      assert all == ts;
    } else {
      SolidOfNewlines(n[1..], ts);
      assert all[1..] == Comments.AsCode(n[1..]) + ts;
      assert all[0] == Code('\n');
      Commas.HasCons(all);
    }
  }

  /** Dropping the tokens of a comment changes neither the next solid token nor whether commas are stacked. */
  lemma CommentVanishes(t: Token, rest: seq<Token>)
    requires t.BlockComment? || t.LineComment?
    ensures Commas.Solid(Comments.Keep(t) + rest) == Commas.Solid(rest)
    ensures Commas.HasStacked(Comments.Keep(t) + rest) ==> Commas.HasStacked(rest)
  {
    if t.BlockComment? && t.text != "" {
      Comments.NewlinesAreNewlines(t.text[..|t.text| - 1]);
      SolidOfNewlines(Comments.Newlines(t.text[..|t.text| - 1]), rest);
    } else {
      assert [] + rest == rest;
    }
  }

  lemma {:induction false} SolidOfKept(ts: seq<Token>)
    ensures Commas.Solid(Comments.KeepAll(ts)) == SolidPastComments(ts)
  {
    if ts != [] {
      var rest := Comments.KeepAll(ts[1..]);
      SolidOfKept(ts[1..]);
      if ts[0].BlockComment? || ts[0].LineComment? {
        CommentVanishes(ts[0], rest);
      } else {
        assert Comments.KeepAll(ts)[0] == ts[0] && Comments.KeepAll(ts)[1..] == rest;
      }
    }
  }

  lemma AdjacentCons(ts: seq<Token>)
    requires ts != []
    ensures AdjacentCommas(ts[1..]) ==> AdjacentCommas(ts)
    ensures ts[0] == Code(',') && SolidPastComments(ts[1..]) == Some(Code(',')) ==> AdjacentCommas(ts)
  {
    if AdjacentCommas(ts[1..]) {
      var i :| 0 <= i < |ts[1..]| && ts[1..][i] == Code(',') && SolidPastComments(ts[1..][i + 1..]) == Some(Code(','));
      assert ts[i + 1] == Code(',') && ts[i + 2..] == ts[1..][i + 1..];
    }
  }

  lemma StackedAtFirst(t: Token, rest: seq<Token>)
    requires Commas.Stacked([t] + Comments.KeepAll(rest))
    ensures AdjacentCommas([t] + rest)
  {
    var kept, ts := [t] + Comments.KeepAll(rest), [t] + rest;
    assert kept[1..] == Comments.KeepAll(rest) && ts[1..] == rest && kept[0] == ts[0];
    SolidOfKept(rest);
    AdjacentCons(ts);
  }

  lemma {:induction false} StackedAreAdjacent(ts: seq<Token>)
    requires Commas.HasStacked(Comments.KeepAll(ts))
    ensures AdjacentCommas(ts)
  {
    if ts != [] {
      var t, rest := ts[0], Comments.KeepAll(ts[1..]);
      AdjacentCons(ts);
      if t.BlockComment? || t.LineComment? {
        CommentVanishes(t, rest);
        StackedAreAdjacent(ts[1..]);
      } else {
        Commas.HasCons([t] + rest);
        assert ([t] + rest)[1..] == rest && ts == [t] + ts[1..];
        if Commas.Stacked([t] + rest) {
          StackedAtFirst(t, ts[1..]);
        } else {
          StackedAreAdjacent(ts[1..]);
        }
      }
    }
  }

  /** A trailing comma is left exactly if, comments aside, two commas precede a closing bracket; so none is
      left in a text without adjacent commas. */
  lemma TrailingCommaLeftIff(s: string)
    ensures Commas.HasTrailing(Lex(ToJson(s), false)) <==> Commas.HasStacked(Comments.KeepAll(Lex(s, true)))
    ensures !AdjacentCommas(Lex(s, true)) ==> !Commas.HasTrailing(Lex(ToJson(s), false))
  {
    TokensOfJson(s);
    Commas.TrailingLeftIff(Comments.KeepAll(Lex(s, true)));
    if Commas.HasStacked(Comments.KeepAll(Lex(s, true))) {
      StackedAreAdjacent(Lex(s, true));
    }
  }

  // ---------- JSON text ----------

  /** JSON values as written, whitespace included. `Bare` covers numbers and the three literal names. */
  datatype Json =
    | Bare(text: string)
    | Str(text: string)
    | Container(open: char, space: string, items: Items)

  /** Array elements, or object members if they have a key. */
  datatype Items = NoItems | Item(before: string, key: Option<Key>, value: Json, after: string, rest: Items)

  datatype Key = Key(text: string, beforeColon: string, afterColon: string)

  predicate BareChar(c: char)
  {
    '0' <= c <= '9' || 'a' <= c <= 'z' || 'A' <= c <= 'Z' || c == '-' || c == '+' || c == '.'
  }

  predicate Space(s: string)
  {
    forall i :: 0 <= i < |s| ==> Commas.IsSpace(s[i])
  }

  predicate StringLiteral(text: string)
  {
    IsLiteral(text) && IsClosed(text)
  }

  /** Every JSON text of RFC 8259 is valid in this sense; numbers and names are not looked into. */
  predicate ValidValue(v: Json)
  {
    match v
    case Bare(text) => text != "" && forall i :: 0 <= i < |text| ==> BareChar(text[i])
    case Str(text) => StringLiteral(text)
    case Container(open, space, items) =>
      (open == '[' || open == '{') && Space(space) && ValidItems(items, open == '{')
  }

  predicate ValidItems(items: Items, keyed: bool)
  {
    match items
    case NoItems => true
    case Item(before, key, value, after, rest) =>
      && Space(before) && Space(after) && ValidValue(value) && ValidItems(rest, keyed)
      && key.Some? == keyed
      && (key.Some? ==> StringLiteral(key.value.text) && Space(key.value.beforeColon) && Space(key.value.afterColon))
  }

  function Closer(open: char): char
  {
    if open == '[' then ']' else '}'
  }

  function ValueTokens(v: Json): seq<Token>
  {
    match v
    case Bare(text) => Comments.AsCode(text)
    case Str(text) => [Literal(text)]
    case Container(open, space, items) =>
      [Code(open)] + (Comments.AsCode(space) + (ItemTokens(items, true) + [Code(Closer(open))]))
  }

  function ItemTokens(items: Items, first: bool): seq<Token>
  {
    match items
    case NoItems => []
    case Item(before, key, value, after, rest) =>
      (if first then [] else [Code(',')]) +
      (Comments.AsCode(before) + (KeyTokens(key) + (ValueTokens(value) + (Comments.AsCode(after) + ItemTokens(rest, false)))))
  }

  function KeyTokens(key: Option<Key>): seq<Token>
  {
    match key
    case None => []
    case Some(k) => [Literal(k.text)] + (Comments.AsCode(k.beforeColon) + ([Code(':')] + Comments.AsCode(k.afterColon)))
  }

  /** The text of a value with whitespace around it. */
  function JsonText(before: string, v: Json, after: string): string
  {
    Text(Comments.AsCode(before) + (ValueTokens(v) + Comments.AsCode(after)))
  }

  // ---------- JSON text is left alone ----------

  /** Code and closed literals without comments and without trailing commas. */
  ghost predicate Good(ts: seq<Token>)
  {
    Comments.Clean(ts) && !Commas.HasTrailing(ts)
  }

  lemma GoodCons(t: Token, ts: seq<Token>)
    requires Good(ts)
    requires match t
             case Code(c) => c != '"' && c != '/'
             case Literal(text) => StringLiteral(text)
             case _ => false
    requires t == Code(',') ==> Commas.Solid(ts).Some? && !Commas.IsCloser(Commas.Solid(ts).value)
    ensures Good([t] + ts)
  {
    Comments.CleanCons(t, ts);
    assert ([t] + ts)[1..] == ts;
    Commas.HasCons([t] + ts);
  }

  predicate PlainChar(c: char)
  {
    c != '"' && c != '/' && c != ','
  }

  lemma {:induction false} GoodCode(s: string, ts: seq<Token>)
    requires Good(ts) && forall i :: 0 <= i < |s| ==> PlainChar(s[i])
    ensures Good(Comments.AsCode(s) + ts)
  {
    if s == "" {
      assert Comments.AsCode(s) + ts == ts;
    } else {
      GoodCode(s[1..], ts);
      GoodCons(Code(s[0]), Comments.AsCode(s[1..]) + ts);
      assert Comments.AsCode(s) + ts == [Code(s[0])] + (Comments.AsCode(s[1..]) + ts);
    }
  }

  lemma {:induction false} SolidPastSpace(s: string, ts: seq<Token>)
    requires Space(s)
    ensures Commas.Solid(Comments.AsCode(s) + ts) == Commas.Solid(ts)
  {
    if s == "" {
      assert Comments.AsCode(s) + ts == ts;
    } else {
      SolidPastSpace(s[1..], ts);
      assert (Comments.AsCode(s) + ts)[1..] == Comments.AsCode(s[1..]) + ts;
    }
  }

  /** A value starts with a token that is neither blank nor a closing bracket. */
  lemma ValueStarts(v: Json, ts: seq<Token>)
    requires ValidValue(v)
    ensures Commas.Solid(ValueTokens(v) + ts).Some? && !Commas.IsCloser(Commas.Solid(ValueTokens(v) + ts).value)
  {
    assert (ValueTokens(v) + ts)[0] == ValueTokens(v)[0];
  }

  lemma KeyedValueStarts(key: Option<Key>, v: Json, ts: seq<Token>)
    requires ValidValue(v)
    ensures var all := KeyTokens(key) + (ValueTokens(v) + ts);
            Commas.Solid(all).Some? && !Commas.IsCloser(Commas.Solid(all).value)
  {
    match key
    case None =>
      ValueStarts(v, ts);
      assert KeyTokens(key) + (ValueTokens(v) + ts) == ValueTokens(v) + ts;
    case Some(k) =>
      assert (KeyTokens(key) + (ValueTokens(v) + ts))[0] == Literal(k.text);
  }

  lemma GoodKey(key: Option<Key>, ts: seq<Token>)
    requires Good(ts)
    requires key.Some? ==> StringLiteral(key.value.text) && Space(key.value.beforeColon) && Space(key.value.afterColon)
    ensures Good(KeyTokens(key) + ts)
  {
    match key
    case None =>
      assert KeyTokens(key) + ts == ts;
    case Some(k) =>
      var a, b := Comments.AsCode(k.beforeColon), Comments.AsCode(k.afterColon);
      GoodCode(k.afterColon, ts);
      GoodCons(Code(':'), b + ts);
      GoodCode(k.beforeColon, [Code(':')] + (b + ts));
      GoodCons(Literal(k.text), a + ([Code(':')] + (b + ts)));
      assert KeyTokens(key) + ts == [Literal(k.text)] + (a + ([Code(':')] + (b + ts)));
  }

  lemma {:induction false} GoodValue(v: Json, ts: seq<Token>)
    requires ValidValue(v) && Good(ts)
    ensures Good(ValueTokens(v) + ts)
    decreases v
  {
    match v
    case Bare(text) => GoodCode(text, ts);
    case Str(text) => GoodCons(Literal(text), ts);
    case Container(open, space, items) =>
      var close := [Code(Closer(open))] + ts;
      GoodCons(Code(Closer(open)), ts);
      GoodItems(items, true, open == '{', close);
      GoodCode(space, ItemTokens(items, true) + close);
      GoodCons(Code(open), Comments.AsCode(space) + (ItemTokens(items, true) + close));
      assert ValueTokens(v) + ts == [Code(open)] + (Comments.AsCode(space) + (ItemTokens(items, true) + close));
  }

  /** The tokens of an item without its comma, in front of `ts`. */
  function ItemBefore(before: string, key: Option<Key>, value: Json, after: string, ts: seq<Token>): seq<Token>
  {
    Comments.AsCode(before) + (KeyTokens(key) + (ValueTokens(value) + (Comments.AsCode(after) + ts)))
  }

  lemma ItemsUnfold(items: Items, first: bool, ts: seq<Token>)
    requires items.Item?
    ensures var item := ItemBefore(items.before, items.key, items.value, items.after, ItemTokens(items.rest, false) + ts);
            ItemTokens(items, first) + ts == if first then item else [Code(',')] + item
  {
    var a, b, c, d, e := Comments.AsCode(items.before), KeyTokens(items.key), ValueTokens(items.value),
                         Comments.AsCode(items.after), ItemTokens(items.rest, false);
    var item := a + (b + (c + (d + e)));
    Regroup(d, e, ts);
    Regroup(c, d + e, ts);
    Regroup(b, c + (d + e), ts);
    Regroup(a, b + (c + (d + e)), ts);
    if first {
      assert [] + item == item;
    } else {
      Regroup([Code(',')], item, ts);
    }
  }

  lemma {:induction false} GoodItems(items: Items, first: bool, keyed: bool, ts: seq<Token>)
    requires ValidItems(items, keyed) && Good(ts)
    ensures Good(ItemTokens(items, first) + ts)
    decreases items
  {
    match items
    case NoItems =>
      assert ItemTokens(items, first) + ts == ts;
    case Item(before, key, value, after, rest) =>
      GoodItems(rest, false, keyed, ts);
      var t1 := ItemTokens(rest, false) + ts;
      GoodCode(after, t1);
      var t2 := Comments.AsCode(after) + t1;
      GoodValue(value, t2);
      GoodKey(key, ValueTokens(value) + t2);
      var t3 := KeyTokens(key) + (ValueTokens(value) + t2);
      GoodCode(before, t3);
      ItemsUnfold(items, first, ts);
      if !first {
        KeyedValueStarts(key, value, t2);
        SolidPastSpace(before, t3);
        GoodCons(Code(','), Comments.AsCode(before) + t3);
      }
  }

  lemma {:induction false} NothingToDrop(ts: seq<Token>)
    requires !Commas.HasTrailing(ts)
    ensures Commas.DropCommas(ts) == ts
  {
    if ts != [] {
      Commas.HasCons(ts);
      NothingToDrop(ts[1..]);
      assert ts == [ts[0]] + ts[1..];
    }
  }

  /** Neither pass changes a JSON text. */
  lemma JsonIsLeftAlone(before: string, v: Json, after: string)
    requires ValidValue(v) && Space(before) && Space(after)
    ensures Comments.Strip(JsonText(before, v, after)) == JsonText(before, v, after)
    ensures ToJson(JsonText(before, v, after)) == JsonText(before, v, after)
  {
    var a, b := Comments.AsCode(before), Comments.AsCode(after);
    var ts, s := a + (ValueTokens(v) + b), JsonText(before, v, after);
    var none: seq<Token> := [];
    assert Good(none);
    GoodCode(after, []);
    assert b + none == b;
    GoodValue(v, b);
    GoodCode(before, ValueTokens(v) + b);
    LexOfText(ts, true);
    LexOfText(ts, false);
    Comments.KeepAllKept(ts);
    NothingToDrop(ts);
  }
}
