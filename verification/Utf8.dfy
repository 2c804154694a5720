/** Undoing the UTF-8 encoding of raw bytes, as some exported request data needs. */
module Utf8 {
  import opened Common

  const RUNE_ERROR: int := 0xFFFD

  predicate Continuation(b: Byte)
  {
    0x80 <= b <= 0xBF
  }

  /** The range the second byte must lie in, after a first byte of a longer sequence. */
  predicate SecondByte(b0: Byte, b1: Byte)
  {
    if b0 == 0xE0 then 0xA0 <= b1 <= 0xBF
    else if b0 == 0xED then 0x80 <= b1 <= 0x9F
    else if b0 == 0xF0 then 0x90 <= b1 <= 0xBF
    else if b0 == 0xF4 then 0x80 <= b1 <= 0x8F
    else Continuation(b1)
  }

  function Bits(b: Byte): int
  {
    (b as int) - 0x80
  }

  /** utf8.DecodeRune: the first code point and its length in bytes; an invalid encoding yields the
      replacement character and length one. */
  function DecodeRune(p: Bytes): (int, nat)
  {
    if p == [] then (RUNE_ERROR, 0)
    else if p[0] < 0x80 then (p[0] as int, 1)
    else if 0xC2 <= p[0] <= 0xDF && |p| >= 2 && Continuation(p[1]) then
      ((p[0] as int - 0xC0) * 0x40 + Bits(p[1]), 2)
    else if 0xE0 <= p[0] <= 0xEF && |p| >= 3 && SecondByte(p[0], p[1]) && Continuation(p[2]) then
      ((p[0] as int - 0xE0) * 0x1000 + Bits(p[1]) * 0x40 + Bits(p[2]), 3)
    else if 0xF0 <= p[0] <= 0xF4 && |p| >= 4 && SecondByte(p[0], p[1]) && Continuation(p[2]) && Continuation(p[3]) then
      ((p[0] as int - 0xF0) * 0x40000 + Bits(p[1]) * 0x1000 + Bits(p[2]) * 0x40 + Bits(p[3]), 4)
    else (RUNE_ERROR, 1)
  }

  /** The UTF-8 encoding (section 3 of RFC 3629) of a code point up to U+00FF. */
  function Encode(b: Byte): (e: Bytes)
    ensures 1 <= |e| <= 2
  {
    if b < 0x80 then [b]
    else [((b as int) / 0x40 + 0xC0) as Byte, ((b as int) % 0x40 + 0x80) as Byte]
  }

  function EncodeAll(raw: Bytes): Bytes
  {
    if raw == [] then [] else Encode(raw[0]) + EncodeAll(raw[1..])
  }

  predicate Narrow(p: Bytes)
  {
    var (rune, n) := DecodeRune(p);
    rune <= 0xFF && n <= 2
  }

  /** A decoded rune is accepted exactly if the input starts with the encoding of a byte. */
  lemma NarrowIsEncoding(p: Bytes)
    requires p != []
    ensures Narrow(p) ==>
              var (rune, n) := DecodeRune(p);
              0 <= rune && 0 < n <= |p| && Encode(rune as Byte) == p[..n]
    ensures forall b: Byte :: Encode(b) <= p ==> Narrow(p) && DecodeRune(p) == (b as int, |Encode(b)|)
  {
    if Narrow(p) && p[0] >= 0x80 {
      assert p[..2] == [p[0], p[1]];
    } else if Narrow(p) {
      assert p[..1] == [p[0]];
    }
    forall b: Byte | Encode(b) <= p
      ensures Narrow(p) && DecodeRune(p) == (b as int, |Encode(b)|)
    {
      assert p[..|Encode(b)|] == Encode(b);
      assert p[0] == Encode(b)[0];
      if b >= 0x80 {
        assert p[1] == Encode(b)[1];
      }
    }
  }

  /** The bytes encoded by `bytes`, if it encodes nothing but code points up to U+00FF. */
  function Convert(bytes: Bytes): Option<Bytes>
  {
    if bytes == [] then Some([])
    else if !Narrow(bytes) then None
    else
      NarrowIsEncoding(bytes);
      var (rune, n) := DecodeRune(bytes);
      After([rune as Byte], Convert(bytes[n..]))
  }

  lemma ConvertFirst(bytes: Bytes) returns (b: Byte, rest: Bytes)
    requires bytes != [] && Convert(bytes).Some?
    ensures |rest| < |bytes| && bytes == Encode(b) + rest
    ensures Convert(rest).Some? && Convert(bytes).value == [b] + Convert(rest).value
  {
    NarrowIsEncoding(bytes);
    var (rune, n) := DecodeRune(bytes);
    b, rest := rune as Byte, bytes[n..];
    assert bytes == bytes[..n] + bytes[n..];
  }

  lemma EncodeCons(b: Byte, raw: Bytes)
    ensures EncodeAll([b] + raw) == Encode(b) + EncodeAll(raw)
  {
    assert ([b] + raw)[1..] == raw;
  }

  lemma {:induction false} ConvertedEncodesBack(bytes: Bytes)
    requires Convert(bytes).Some?
    ensures EncodeAll(Convert(bytes).value) == bytes
    decreases |bytes|
  {
    if bytes != [] {
      var b, rest := ConvertFirst(bytes);
      ConvertedEncodesBack(rest);
      EncodeCons(b, Convert(rest).value);
    }
  }

  lemma {:induction false} EncodedConvertsBack(raw: Bytes)
    ensures Convert(EncodeAll(raw)) == Some(raw)
  {
    if raw != [] {
      var e := EncodeAll(raw);
      assert Encode(raw[0]) <= e;
      NarrowIsEncoding(e);
      assert e[|Encode(raw[0])|..] == EncodeAll(raw[1..]);
      EncodedConvertsBack(raw[1..]);
      assert [raw[0]] + raw[1..] == raw;
    }
  }

  function After(out: Bytes, rest: Option<Bytes>): Option<Bytes>
  {
    if rest.None? then None else Some(out + rest.value)
  }

  lemma Grown(out: Bytes, rest: Option<Bytes>)
    ensures out == [] ==> After(out, rest) == rest
  {
    if rest.Some? {
      assert [] + rest.value == rest.value;
    }
  }

  lemma GrownTwice(out: Bytes, b: Byte, rest: Option<Bytes>)
    ensures After(out, After([b], rest)) == After(out + [b], rest)
  {
    if rest.Some? {
      assert out + ([b] + rest.value) == (out + [b]) + rest.value;
    }
  }

  /** convertFromUTF8 succeeds exactly on encodings of raw bytes, and then returns those bytes. */
  method ConvertFromUTF8(bytes0: Bytes) returns (out: Bytes, ok: bool)
    ensures ok <==> exists raw :: EncodeAll(raw) == bytes0
    ensures ok ==> EncodeAll(out) == bytes0
    ensures forall raw :: EncodeAll(raw) == bytes0 ==> ok && out == raw
  {
    var bytes := bytes0;
    out := [];
    OnlyEncodingsConvert(bytes0);
    Grown(out, Convert(bytes));
    while |bytes| > 0
      invariant Convert(bytes0) == After(out, Convert(bytes))
      decreases |bytes|
    {
      NarrowIsEncoding(bytes);
      var (got, n) := DecodeRune(bytes);
      if got > 0xFF || n > 2 {
        return [], false;
      }
      GrownTwice(out, got as Byte, Convert(bytes[n..]));
      out := out + [got as Byte];
      bytes := bytes[n..];
    }
    assert out + [] == out;
    return out, true;
  }

  lemma OnlyEncodingsConvert(bytes: Bytes)
    ensures Convert(bytes).Some? ==> EncodeAll(Convert(bytes).value) == bytes
    ensures forall raw :: EncodeAll(raw) == bytes ==> Convert(bytes) == Some(raw)
  {
    if Convert(bytes).Some? {
      ConvertedEncodesBack(bytes);
    }
    forall raw | EncodeAll(raw) == bytes
      ensures Convert(bytes) == Some(raw)
    {
      EncodedConvertsBack(raw);
    }
  }
}
