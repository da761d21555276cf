/**
 * The encoding this model assumes for every query name and value, that of
 * PHP's `urlencode` as `http_build_query` applies it: ASCII letters, digits
 * and `-`, `_`, `.` are kept, a space becomes `+`, and every other byte
 * becomes `%` and two upper-case hexadecimal digits. `Decode` inverts it.
 */
module UrlEncoding {
  import opened Wrappers
  import Utf8

  type byte = Utf8.byte

  predicate IsUnreservedByte(b: byte)
  {
    ('A' as int <= b <= 'Z' as int) || ('a' as int <= b <= 'z' as int) || ('0' as int <= b <= '9' as int)
    || b == '-' as int || b == '_' as int || b == '.' as int
  }

  /** A character that `urlencode` leaves as it is. */
  predicate IsUnreservedChar(c: char)
  {
    c as int < 256 && IsUnreservedByte(c as int)
  }

  predicate IsHexDigit(c: char)
  {
    '0' <= c <= '9' || 'A' <= c <= 'F' || 'a' <= c <= 'f'
  }

  /** A character that can appear in the output of `urlencode`. */
  predicate IsEncodedChar(c: char)
  {
    IsUnreservedChar(c) || c == '+' || c == '%'
  }

  function HexDigit(d: nat): (c: char)
    requires d < 16
    ensures IsHexDigit(c) && 'a' > c
  {
    if d < 10 then ('0' as int + d) as char else ('A' as int + d - 10) as char
  }

  function HexValue(c: char): (d: nat)
    requires IsHexDigit(c)
    ensures d < 16
  {
    if '0' <= c <= '9' then c as int - '0' as int
    else if 'A' <= c <= 'F' then c as int - 'A' as int + 10
    else c as int - 'a' as int + 10
  }

  lemma HexDigitValue(d: nat)
    requires d < 16
    ensures HexValue(HexDigit(d)) == d
  {
  }

  /** The encoding of one byte. */
  function EncodeByte(b: byte): (s: string)
    ensures forall i :: 0 <= i < |s| ==> IsEncodedChar(s[i])
    ensures IsUnreservedByte(b) <==> s == [b as char]
    ensures b == 0x20 <==> s == "+"
    ensures !IsUnreservedByte(b) && b != 0x20 ==> |s| == 3 && s[0] == '%'
    ensures !IsUnreservedByte(b) && b != 0x20 ==>
      IsHexDigit(s[1]) && IsHexDigit(s[2]) && s[1] < 'a' && s[2] < 'a'
      && 16 * HexValue(s[1]) + HexValue(s[2]) == b as int
  {
    if IsUnreservedByte(b) then [b as char]
    else if b == 0x20 then "+"
    else
      var high, low := b as int / 16, b as int % 16;
      HexDigitValue(high);
      HexDigitValue(low);
      ['%', HexDigit(high), HexDigit(low)]
  }

  function EncodeBytes(bs: seq<byte>): (s: string)
    ensures forall i :: 0 <= i < |s| ==> IsEncodedChar(s[i])
    decreases |bs|
  {
    if bs == [] then "" else EncodeByte(bs[0]) + EncodeBytes(bs[1..])
  }

  /** `urlencode` of a string: its UTF-8 bytes, each encoded. */
  function Encode(s: string): (r: string)
    ensures forall i :: 0 <= i < |r| ==> IsEncodedChar(r[i])
    ensures '&' !in r && '=' !in r
  {
    EncodeBytes(Utf8.Encode(s))
  }

  function Prepend(b: byte, r: Option<seq<byte>>): Option<seq<byte>>
  {
    match r
    case None => None
    case Some(bs) => Some([b] + bs)
  }

  /** The bytes an encoded string stands for; None when it contains a character `urlencode` never produces. */
  function DecodeBytes(s: string): Option<seq<byte>>
    decreases |s|
  {
    if s == [] then Some([])
    else if s[0] == '+' then Prepend(0x20, DecodeBytes(s[1..]))
    else if s[0] == '%' then
      if |s| >= 3 && IsHexDigit(s[1]) && IsHexDigit(s[2])
      then Prepend(16 * HexValue(s[1]) + HexValue(s[2]), DecodeBytes(s[3..]))
      else None
    else if IsUnreservedChar(s[0]) then Prepend(s[0] as int, DecodeBytes(s[1..]))
    else None
  }

  /** `urldecode`, restricted to what `urlencode` produces. */
  function Decode(s: string): Option<string>
  {
    match DecodeBytes(s)
    case None => None
    case Some(bs) => Utf8.Decode(bs)
  }

  /** Decoding undoes the encoding of one byte, whatever follows it. */
  lemma DecodeEncodedByte(b: byte, rest: string)
    ensures DecodeBytes(EncodeByte(b) + rest) == Prepend(b, DecodeBytes(rest))
  {
    var s := EncodeByte(b) + rest;
    if IsUnreservedByte(b) {
      assert s[0] == b as char && s[1..] == rest;
    } else if b == 0x20 {
      assert s[0] == '+' && s[1..] == rest;
    } else {
      HexDigitValue(b / 16);
      HexDigitValue(b % 16);
      assert s[0] == '%' && s[1] == HexDigit(b / 16) && s[2] == HexDigit(b % 16) && s[3..] == rest;
    }
  }

  lemma {:induction false} DecodeEncodeBytes(bs: seq<byte>)
    ensures DecodeBytes(EncodeBytes(bs)) == Some(bs)
    decreases |bs|
  {
    if bs != [] {
      DecodeEncodedByte(bs[0], EncodeBytes(bs[1..]));
      DecodeEncodeBytes(bs[1..]);
      assert bs == [bs[0]] + bs[1..];
    }
  }

  /** `urldecode(urlencode(s)) == s`. */
  lemma DecodeEncode(s: string)
    ensures Decode(Encode(s)) == Some(s)
  {
    DecodeEncodeBytes(Utf8.Encode(s));
    Utf8.DecodeEncode(s);
  }

  /** A string made only of characters `urlencode` keeps is its own encoding. */
  lemma {:induction false} EncodeUnreserved(s: string)
    requires forall i :: 0 <= i < |s| ==> IsUnreservedChar(s[i])
    ensures Encode(s) == s
    decreases |s|
  {
    if s != [] {
      EncodeUnreserved(s[1..]);
      assert Utf8.Encode(s) == [s[0] as int] + Utf8.Encode(s[1..]);
      assert Encode(s) == [s[0]] + Encode(s[1..]);
    }
  }
}
