/** The UTF-8 bytes behind a Go string. Go's `len(s)` and `s[i:j]` count and cut
    bytes, while the rest of this model reads strings as runes; `Encode` links the
    two. `Decode` is its inverse: it succeeds on exactly the encodings of texts,
    rejecting overlong forms, surrogates and values above U+10FFFF. */
module Utf8 {

  import opened Basics

  newtype byte = x: int | 0 <= x < 256

  /** Number of bytes UTF-8 spends on rune `c`. */
  function RuneLen(c: char): (n: nat)
    ensures 1 <= n <= 4
    ensures n == 1 <==> c as int < 0x80
  {
    if c as int < 0x80 then 1
    else if c as int < 0x800 then 2
    else if c as int < 0x10000 then 3
    else 4
  }

  predicate IsContinuation(b: byte) { 0x80 <= b < 0xC0 }

  function EncodeRune(c: char): (bs: seq<byte>)
    ensures |bs| == RuneLen(c)
    ensures bs[0] < 0x80 <==> |bs| == 1
    ensures !IsContinuation(bs[0])
    ensures forall k :: 1 <= k < |bs| ==> IsContinuation(bs[k])
  {
    var v := c as int;
    if v < 0x80 then [v as byte]
    else if v < 0x800 then [(0xC0 + v / 64) as byte, (0x80 + v % 64) as byte]
    else if v < 0x10000 then
      [(0xE0 + v / 4096) as byte, (0x80 + (v / 64) % 64) as byte, (0x80 + v % 64) as byte]
    else
      [(0xF0 + v / 262144) as byte, (0x80 + (v / 4096) % 64) as byte,
       (0x80 + (v / 64) % 64) as byte, (0x80 + v % 64) as byte]
  }

  /** The bytes of a Go string holding the runes `s`. */
  function Encode(s: string): (bs: seq<byte>)
    ensures |bs| >= |s|
    ensures s != [] ==> |bs| >= RuneLen(s[0]) && bs[..RuneLen(s[0])] == EncodeRune(s[0])
  {
    if s == [] then [] else EncodeRune(s[0]) + Encode(s[1..])
  }

  lemma {:induction false} EncodeAppend(a: string, b: string)
    ensures Encode(a + b) == Encode(a) + Encode(b)
  {
    if a != [] {
      assert (a + b)[0] == a[0];
      assert (a + b)[1..] == a[1..] + b;
      EncodeAppend(a[1..], b);
      calc {
        Encode(a + b);
        EncodeRune(a[0]) + Encode(a[1..] + b);
        EncodeRune(a[0]) + (Encode(a[1..]) + Encode(b));
        (EncodeRune(a[0]) + Encode(a[1..])) + Encode(b);
        Encode(a) + Encode(b);
      }
    } else {
      assert a + b == b;
    }
  }

  /** An ASCII string has exactly one byte per rune, so `len` counts runes. */
  lemma {:induction false} EncodeAsciiLength(s: string)
    requires forall i :: 0 <= i < |s| ==> s[i] as int < 0x80
    ensures |Encode(s)| == |s|
  {
    if s != [] {
      EncodeAsciiLength(s[1..]);
    }
  }

  // ---------------------------------------------------------------------------
  // Decoding
  // ---------------------------------------------------------------------------

  /** Length UTF-8 announces in a lead byte; 0 for a byte that cannot lead. */
  function LeadLen(b: byte): nat
  {
    if b < 0x80 then 1
    else if b < 0xC0 then 0
    else if b < 0xE0 then 2
    else if b < 0xF0 then 3
    else if b < 0xF8 then 4
    else 0
  }

  predicate IsScalar(v: int)
  {
    (0 <= v < 0xD800) || (0xE000 <= v < 0x110000)
  }

  /** The rune the `n` bytes at the head of `bs` stand for, if they are well
      formed: continuation bytes after the lead, a scalar value (no surrogate,
      nothing above U+10FFFF) and no overlong form. */
  function DecodeRune(bs: seq<byte>, n: nat): Option<char>
    requires 1 <= n <= 4 && n <= |bs|
  {
    if exists k :: 1 <= k < n && !IsContinuation(bs[k]) then None
    else
      var v :=
        if n == 1 then bs[0] as int
        else if n == 2 then (bs[0] as int - 0xC0) * 64 + (bs[1] as int - 0x80)
        else if n == 3 then
          (bs[0] as int - 0xE0) * 4096 + (bs[1] as int - 0x80) * 64 + (bs[2] as int - 0x80)
        else
          (bs[0] as int - 0xF0) * 262144 + (bs[1] as int - 0x80) * 4096
          + (bs[2] as int - 0x80) * 64 + (bs[3] as int - 0x80);
      if IsScalar(v) && RuneLen(v as char) == n then Some(v as char) else None
  }

  /** The runes of a byte string, or `None` when it is not valid UTF-8. */
  function Decode(bs: seq<byte>): Option<string>
    decreases |bs|
  {
    if bs == [] then Some([])
    else
      var n := LeadLen(bs[0]);
      if n == 0 || n > |bs| then None
      else match DecodeRune(bs, n)
        case None => None
        case Some(c) =>
          match Decode(bs[n..])
          case None => None
          case Some(rest) => Some([c] + rest)
  }

  lemma DecodeEncodeRune(c: char, tail: seq<byte>)
    ensures var bs := EncodeRune(c) + tail;
            LeadLen(bs[0]) == RuneLen(c) && DecodeRune(bs, RuneLen(c)) == Some(c)
  {
    var v := c as int;
    if v < 0x80 {
    } else if v < 0x800 {
      DecodeTwo(v);
    } else if v < 0x10000 {
      DecodeThree(v);
    } else {
      DecodeFour(v);
    }
  }

  lemma DecodeTwo(v: int)
    requires 0x80 <= v < 0x800
    ensures (0xC0 + v / 64) - 0xC0 == v / 64 < 0x20
    ensures (v / 64) * 64 + v % 64 == v
  {
  }

  lemma DecodeThree(v: int)
    requires 0x800 <= v < 0x10000
    ensures v / 4096 < 0x10
    ensures (v / 4096) * 4096 + ((v / 64) % 64) * 64 + v % 64 == v
  {
    assert v / 64 == (v / 4096) * 64 + (v / 64) % 64;
    assert v == (v / 64) * 64 + v % 64;
  }

  lemma DecodeFour(v: int)
    requires 0x10000 <= v < 0x110000
    ensures v / 262144 < 0x8
    ensures (v / 262144) * 262144 + ((v / 4096) % 64) * 4096 + ((v / 64) % 64) * 64 + v % 64 == v
  {
    assert v / 4096 == (v / 262144) * 64 + (v / 4096) % 64;
    assert v / 64 == (v / 4096) * 64 + (v / 64) % 64;
    assert v == (v / 64) * 64 + v % 64;
  }

  /** Encoding loses nothing: decoding the bytes of a string gives it back. */
  lemma {:induction false} DecodeEncode(s: string)
    ensures Decode(Encode(s)) == Some(s)
  {
    if s != [] {
      var bs := Encode(s);
      var n := RuneLen(s[0]);
      assert bs == EncodeRune(s[0]) + Encode(s[1..]);
      DecodeEncodeRune(s[0], Encode(s[1..]));
      assert bs[n..] == Encode(s[1..]);
      DecodeEncode(s[1..]);
      assert s == [s[0]] + s[1..];
    }
  }

  /** `q` and `r` are the quotient and remainder of `v` by `d`, one of the
      powers of 64 the encoding uses. */
  lemma DivModUnique(v: int, d: int, q: int, r: int)
    requires d == 64 || d == 4096 || d == 262144
    requires 0 <= r < d && v == q * d + r
    ensures v / d == q && v % d == r
  {
  }

  /** The bytes a rune decodes from are its encoding. */
  lemma EncodeDecodeRune(bs: seq<byte>, n: nat, c: char)
    requires 1 <= n <= 4 && n <= |bs| && LeadLen(bs[0]) == n
    requires DecodeRune(bs, n) == Some(c)
    ensures EncodeRune(c) == bs[..n]
  {
    var v := c as int;
    if n == 2 {
      var a, b := bs[0] as int - 0xC0, bs[1] as int - 0x80;
      DivModUnique(v, 64, a, b);
    } else if n == 3 {
      var a, b, e := bs[0] as int - 0xE0, bs[1] as int - 0x80, bs[2] as int - 0x80;
      DivModUnique(v, 64, a * 64 + b, e);
      DivModUnique(v / 64, 64, a, b);
      DivModUnique(v, 4096, a, b * 64 + e);
    } else if n == 4 {
      var a, b, e, f := bs[0] as int - 0xF0, bs[1] as int - 0x80, bs[2] as int - 0x80, bs[3] as int - 0x80;
      DivModUnique(v, 64, a * 4096 + b * 64 + e, f);
      DivModUnique(v / 64, 64, a * 64 + b, e);
      DivModUnique(v, 4096, a * 64 + b, e * 64 + f);
      DivModUnique(v / 4096, 64, a, b);
      DivModUnique(v, 262144, a, b * 4096 + e * 64 + f);
    }
  }

  /** Decoding accepts only encodings: a byte string that decodes is the
      encoding of what it decodes to. */
  lemma {:induction false} EncodeDecode(bs: seq<byte>)
    ensures Decode(bs).Some? ==> Encode(Decode(bs).value) == bs
    decreases |bs|
  {
    if bs != [] && Decode(bs).Some? {
      var n := LeadLen(bs[0]);
      DecodeStep(bs);
      var c := DecodeRune(bs, n).value;
      var rest := Decode(bs[n..]).value;
      EncodeDecodeRune(bs, n, c);
      EncodeDecode(bs[n..]);
      assert Encode([c] + rest) == EncodeRune(c) + Encode(rest) by {
        assert ([c] + rest)[1..] == rest;
      }
      assert bs == bs[..n] + bs[n..];
    }
  }

  /** A byte string that decodes starts with a well-formed rune whose bytes are
      followed by a byte string that decodes. */
  lemma DecodeStep(bs: seq<byte>)
    requires bs != [] && Decode(bs).Some?
    ensures var n := LeadLen(bs[0]);
            && 1 <= n <= |bs|
            && DecodeRune(bs, n).Some?
            && Decode(bs[n..]).Some?
            && Decode(bs).value == [DecodeRune(bs, n).value] + Decode(bs[n..]).value
  {
  }

  /** Decoding succeeds on exactly the encodings of texts. */
  lemma DecodeIffEncoding(bs: seq<byte>, s: string)
    ensures Decode(bs) == Some(s) <==> Encode(s) == bs
  {
    DecodeEncode(s);
    EncodeDecode(bs);
  }

  /** Two overlong forms of U+0000, which `Encode` never produces, are rejected. */
  lemma OverlongRejected()
    ensures Decode([0xC0, 0x80]).None?
    ensures Decode([0xE0, 0x80, 0x80]).None?
  {
  }

  /** A byte string that is not valid UTF-8 is the encoding of no string. */
  lemma InvalidIsNoEncoding(bs: seq<byte>, s: string)
    requires Decode(bs).None?
    ensures Encode(s) != bs
  {
    DecodeEncode(s);
  }
}
