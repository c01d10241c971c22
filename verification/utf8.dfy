/**
 The part of UTF-8 (RFC 3629, section 3) the generation core relies on:
 how many bytes a lead byte announces, the continuation bytes, and Python's
 `str.encode("utf8")` for one character, which turns anti-prompts into bytes.
 */
module Utf8 {
  import opened Common

  /**
   The length of the sequence a byte starts, by the table of RFC 3629
   section 3: 1 for 0xxxxxxx, 2 for 110xxxxx, 3 for 1110xxxx, 4 for
   11110xxx; 0 for a continuation byte 10xxxxxx. The bytes 0xF8 to 0xFF,
   which RFC 3629 never uses, are counted as four-byte leads, as the
   guard's masks treat them.
   */
  function SeqLength(c: bv8): nat
  {
    if c < 0x80 then 1
    else if c < 0xC0 then 0
    else if c < 0xE0 then 2
    else if c < 0xF0 then 3
    else 4
  }

  predicate IsContinuation(c: bv8) { SeqLength(c) == 0 }

  /** The byte with value `v`, counted up from zero (which keeps integer-to-bit-vector conversion out of the proofs). */
  function ByteOf(v: int): (b: bv8)
    requires 0 <= v < 256
    ensures b as int == v
    ensures (v < 0x80 <==> b < 0x80) && (v < 0xC0 <==> b < 0xC0) && (v < 0xE0 <==> b < 0xE0) && (v < 0xF0 <==> b < 0xF0)
  {
    var b := if v == 0 then 0 else ByteOf(v - 1) + 1;
    ByteOrder(b);
    b
  }

  /** A byte compares with the lead-byte bounds as its value does. */
  lemma ByteOrder(b: bv8)
    ensures (b < 0x80 <==> b as int < 0x80) && (b < 0xC0 <==> b as int < 0xC0)
    ensures (b < 0xE0 <==> b as int < 0xE0) && (b < 0xF0 <==> b as int < 0xF0)
  {
  }

  /** The continuation byte carrying the low six bits of `v`. */
  function Trail(v: nat): (b: bv8)
    ensures IsContinuation(b) && b as int == 0x80 + v % 64
  {
    ByteOf(0x80 + v % 64)
  }

  /**
   The masks the source tests, `pattern & c == pattern`, hold exactly for the
   bytes from 0xC0, 0xE0 and 0xF0 on: the lead bytes of RFC 3629 announcing
   at least two, three and four bytes, plus the unused bytes 0xF8 to 0xFF.
   */
  lemma MasksAreLeadBytes(c: bv8)
    ensures (0xC0 & c == 0xC0) <==> c >= 0xC0
    ensures (0xE0 & c == 0xE0) <==> c >= 0xE0
    ensures (0xF0 & c == 0xF0) <==> c >= 0xF0
    ensures (0xC0 & c == 0xC0) <==> SeqLength(c) >= 2
    ensures (0xE0 & c == 0xE0) <==> SeqLength(c) >= 3
    ensures (0xF0 & c == 0xF0) <==> SeqLength(c) == 4
  {
  }

  /** Python's `ch.encode("utf8")` for one character (the shortest form of RFC 3629 section 3). */
  function EncodeChar(ch: char): (r: Bytes)
    ensures 1 <= |r| <= 4
    ensures SeqLength(r[0]) == |r|
    ensures forall i :: 1 <= i < |r| ==> IsContinuation(r[i])
    ensures |r| == if ch as int < 0x80 then 1 else if ch as int < 0x800 then 2 else if ch as int < 0x10000 then 3 else 4
  {
    var n := ch as int;
    if n < 0x80 then [ByteOf(n)]
    else if n < 0x800 then Encode2(n)
    else if n < 0x10000 then Encode3(n)
    else Encode4(n)
  }

  /** 110xxxxx 10xxxxxx */
  function Encode2(n: int): (r: Bytes)
    requires 0x80 <= n < 0x800
    ensures |r| == 2 && SeqLength(r[0]) == 2 && IsContinuation(r[1])
  {
    [ByteOf(0xC0 + n / 64), Trail(n)]
  }

  /** 1110xxxx 10xxxxxx 10xxxxxx */
  function Encode3(n: int): (r: Bytes)
    requires 0x800 <= n < 0x10000
    ensures |r| == 3 && SeqLength(r[0]) == 3 && IsContinuation(r[1]) && IsContinuation(r[2])
  {
    [ByteOf(0xE0 + n / 64 / 64), Trail(n / 64), Trail(n)]
  }

  /** 11110xxx 10xxxxxx 10xxxxxx 10xxxxxx */
  function Encode4(n: int): (r: Bytes)
    requires 0x10000 <= n < 0x110000
    ensures |r| == 4 && SeqLength(r[0]) == 4 && IsContinuation(r[1]) && IsContinuation(r[2]) && IsContinuation(r[3])
  {
    [ByteOf(0xF0 + n / 64 / 64 / 64), Trail(n / 64 / 64), Trail(n / 64), Trail(n)]
  }

  /** The code point a well-formed sequence of `SeqLength(b[0])` bytes stands for. */
  function DecodeSeq(b: Bytes): int
    requires 1 <= |b| <= 4
  {
    if |b| == 1 then b[0] as int
    else if |b| == 2 then ((b[0] as int) - 0xC0) * 64 + ((b[1] as int) - 0x80)
    else if |b| == 3 then
      (((b[0] as int) - 0xE0) * 64 + ((b[1] as int) - 0x80)) * 64 + ((b[2] as int) - 0x80)
    else
      ((((b[0] as int) - 0xF0) * 64 + ((b[1] as int) - 0x80)) * 64 + ((b[2] as int) - 0x80)) * 64
      + ((b[3] as int) - 0x80)
  }

  /** Decoding the encoding of a character gives back its code point. */
  lemma EncodeDecodeChar(ch: char)
    ensures DecodeSeq(EncodeChar(ch)) == ch as int
  {
    var n := ch as int;
    if n < 0x80 {
    } else if n < 0x800 {
      DecodeEncode2(n);
    } else if n < 0x10000 {
      DecodeEncode3(n);
    } else {
      DecodeEncode4(n);
    }
  }

  lemma DecodeEncode2(n: int)
    requires 0x80 <= n < 0x800
    ensures DecodeSeq(Encode2(n)) == n
  {
    var r := Encode2(n);
    assert r[0] as int == 0xC0 + n / 64;
    assert r[1] as int == 0x80 + n % 64;
  }

  lemma DecodeEncode3(n: int)
    requires 0x800 <= n < 0x10000
    ensures DecodeSeq(Encode3(n)) == n
  {
    var r := Encode3(n);
    var q1 := n / 64;
    assert r[0] as int == 0xE0 + q1 / 64;
    assert r[1] as int == 0x80 + q1 % 64;
    assert r[2] as int == 0x80 + n % 64;
    assert (q1 / 64) * 64 + q1 % 64 == q1;
    assert q1 * 64 + n % 64 == n;
  }

  lemma DecodeEncode4(n: int)
    requires 0x10000 <= n < 0x110000
    ensures DecodeSeq(Encode4(n)) == n
  {
    var r := Encode4(n);
    var q1 := n / 64;
    var q2 := q1 / 64;
    assert r[0] as int == 0xF0 + q2 / 64;
    assert r[1] as int == 0x80 + q2 % 64;
    assert r[2] as int == 0x80 + q1 % 64;
    assert r[3] as int == 0x80 + n % 64;
    assert (q2 / 64) * 64 + q2 % 64 == q2;
    assert q2 * 64 + q1 % 64 == q1;
    assert q1 * 64 + n % 64 == n;
  }

  /** Python's `s.encode("utf8")`: the characters' encodings, concatenated. */
  function Encode(s: string): (r: Bytes)
    ensures |s| <= |r| <= 4 * |s|
  {
    if s == [] then [] else EncodeChar(s[0]) + Encode(s[1..])
  }

  /** A one-character string encodes as that character. */
  lemma EncodeOne(c: char)
    ensures Encode([c]) == EncodeChar(c)
  {
    assert [c][1..] == [];
  }

  /** Encoding distributes over concatenation, character by character. */
  lemma {:induction false} EncodeAppend(s: string, t: string)
    ensures Encode(s + t) == Encode(s) + Encode(t)
  {
    if s == [] {
      assert s + t == t;
    } else {
      assert (s + t)[1..] == s[1..] + t;
      EncodeAppend(s[1..], t);
    }
  }
}
