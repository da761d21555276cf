/**
 * PHP strings are byte strings; this model's strings are text, and it takes
 * their bytes to be their UTF-8 encoding when they are URL-encoded. This module gives that encoding and the
 * decoder that inverts it.
 */
module Utf8 {
  import opened Wrappers

  type byte = b: int | 0 <= b < 256

  /** True for the Unicode scalar values, the integers a `char` can hold. */
  predicate IsScalarValue(n: int)
  {
    0 <= n < 0xD800 || 0xE000 <= n < 0x11_0000
  }

  /** The UTF-8 bytes of one character (RFC 3629, section 3). */
  function EncodeChar(c: char): (bs: seq<byte>)
    ensures 1 <= |bs| <= 4
    ensures c as int < 0x80 <==> |bs| == 1
    ensures |bs| == 1 ==> bs[0] == c as int
  {
    var n := c as int;
    if n < 0x80 then [n]
    else if n < 0x800 then [0xC0 + n / 64, 0x80 + n % 64]
    else if n < 0x1_0000 then [0xE0 + n / 4096, 0x80 + (n / 64) % 64, 0x80 + n % 64]
    else [0xF0 + n / 262144, 0x80 + (n / 4096) % 64, 0x80 + (n / 64) % 64, 0x80 + n % 64]
  }

  /** The UTF-8 bytes of a string, character after character. */
  function Encode(s: string): (bs: seq<byte>)
    ensures |bs| >= |s|
    decreases |s|
  {
    if s == [] then [] else EncodeChar(s[0]) + Encode(s[1..])
  }

  /** How many bytes a sequence starting with lead byte `b` occupies; 0 if `b` cannot lead one. */
  function SequenceLength(b: byte): nat
  {
    if b < 0x80 then 1
    else if 0xC0 <= b < 0xE0 then 2
    else if 0xE0 <= b < 0xF0 then 3
    else if 0xF0 <= b < 0xF8 then 4
    else 0
  }

  predicate IsContinuation(b: byte) { 0x80 <= b < 0xC0 }

  /** The code point that a lead byte and its continuation bytes spell out. */
  function CodePoint(bs: seq<byte>): int
    requires |bs| > 0 && |bs| == SequenceLength(bs[0])
  {
    var b0, n := bs[0] as int, |bs|;
    if n == 1 then b0
    else if n == 2 then (b0 - 0xC0) * 64 + (bs[1] as int - 0x80)
    else if n == 3 then (b0 - 0xE0) * 4096 + (bs[1] as int - 0x80) * 64 + (bs[2] as int - 0x80)
    else (b0 - 0xF0) * 262144 + (bs[1] as int - 0x80) * 4096 + (bs[2] as int - 0x80) * 64 + (bs[3] as int - 0x80)
  }

  /** Decodes a byte string; None when it is not the encoding of a string. */
  function Decode(bs: seq<byte>): (r: Option<string>)
    decreases |bs|
  {
    if bs == [] then Some([])
    else
      var len := SequenceLength(bs[0]);
      if len == 0 || |bs| < len then None
      else if exists k :: 1 <= k < len && !IsContinuation(bs[k]) then None
      else
        var n := CodePoint(bs[..len]);
        if !IsScalarValue(n) || EncodeChar(n as char) != bs[..len] then None
        else
          match Decode(bs[len..])
          case None => None
          case Some(rest) => Some([n as char] + rest)
  }

  /** The bytes of one character decode back to that character's code point. */
  lemma EncodeCharDecodes(c: char)
    ensures var bs := EncodeChar(c);
      |bs| == SequenceLength(bs[0]) &&
      (forall k :: 1 <= k < |bs| ==> IsContinuation(bs[k])) &&
      CodePoint(bs) == c as int
  {
    var n := c as int;
    if n >= 0x1_0000 {
      FourBytes(n);
    } else if n >= 0x800 {
      ThreeBytes(n);
    }
  }

  lemma ThreeBytes(n: int)
    requires 0x800 <= n < 0x1_0000
    ensures var a, b, c := n / 4096, (n / 64) % 64, n % 64;
      0 <= a < 16 && 0 <= b < 64 && 0 <= c < 64 && n == a * 4096 + b * 64 + c
  {
    var q := n / 64;
    assert n == q * 64 + n % 64;
    assert q == (q / 64) * 64 + q % 64;
    assert q / 64 == n / 4096;
  }

  lemma FourBytes(n: int)
    requires 0x1_0000 <= n < 0x11_0000
    ensures var a, b, c, d := n / 262144, (n / 4096) % 64, (n / 64) % 64, n % 64;
      0 <= a < 5 && 0 <= b < 64 && 0 <= c < 64 && 0 <= d < 64 && n == a * 262144 + b * 4096 + c * 64 + d
  {
    var q := n / 64;
    assert n == q * 64 + n % 64;
    var p := q / 64;
    assert q == p * 64 + q % 64;
    assert p == n / 4096;
    assert p == (p / 64) * 64 + p % 64;
    assert p / 64 == n / 262144;
  }

  /** Decoding the UTF-8 bytes of a string gives the string back. */
  lemma {:induction false} DecodeEncode(s: string)
    ensures Decode(Encode(s)) == Some(s)
    decreases |s|
  {
    if s != [] {
      var head := EncodeChar(s[0]);
      var bs := Encode(s);
      assert bs == head + Encode(s[1..]);
      EncodeCharDecodes(s[0]);
      var len := |head|;
      assert bs[0] == head[0];
      assert bs[..len] == head;
      assert bs[len..] == Encode(s[1..]);
      assert forall k :: 1 <= k < len ==> IsContinuation(bs[k]);
      assert (CodePoint(bs[..len]) as char) == s[0];
      DecodeEncode(s[1..]);
      assert s == [s[0]] + s[1..];
    }
  }
}
