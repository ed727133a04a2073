/** The encodings behind the `data:` URI of a rendered node: the markup is
    turned into bytes by UTF-8 (RFC 3629, section 3) and the bytes into text
    by the base64 alphabet of RFC 4648, section 4, with `=` padding. */
module Encoding {
  import opened Wrappers

  type byte = b: int | 0 <= b < 256

  // ------------------------------------------------------------ UTF-8

  /** The bytes of one character, by the ranges of RFC 3629, section 3. */
  function Utf8Char(c: char): (r: seq<byte>)
    ensures 1 <= |r| <= 4
  {
    var v := c as int;
    if v < 0x80 then [v]
    else if v < 0x800 then [0xC0 + v / 64, 0x80 + v % 64]
    else if v < 0x10000 then [0xE0 + v / 4096, 0x80 + (v / 64) % 64, 0x80 + v % 64]
    else [0xF0 + v / 262144, 0x80 + (v / 4096) % 64, 0x80 + (v / 64) % 64, 0x80 + v % 64]
  }

  /** `Buffer.from(s)`: the UTF-8 bytes of a string. */
  function Utf8(s: string): seq<byte>
  {
    if s == [] then [] else Utf8Char(s[0]) + Utf8(s[1..])
  }

  predicate IsScalar(v: int)
  {
    (0 <= v < 0xD800) || (0xE000 <= v < 0x110000)
  }

  predicate IsContinuation(b: byte)
  {
    0x80 <= b < 0xC0
  }

  /** The length of the character a lead byte announces, 0 for a byte that
      cannot lead one. */
  function LeadLength(b: byte): nat
  {
    if b < 0x80 then 1
    else if 0xC0 <= b < 0xE0 then 2
    else if 0xE0 <= b < 0xF0 then 3
    else if 0xF0 <= b < 0xF8 then 4
    else 0
  }

  /** The code point of one encoded character, when it is one. */
  function Utf8CharValue(bs: seq<byte>): Option<char>
    requires 1 <= |bs| <= 4
  {
    var v: int := CodePoint(bs);
    if LeadLength(bs[0]) == |bs| && (forall i | 1 <= i < |bs| :: IsContinuation(bs[i])) && IsScalar(v)
    then Some(v as char)
    else None
  }

  /** The code point the payload bits of an encoded character spell. */
  function CodePoint(bs: seq<byte>): int
    requires 1 <= |bs| <= 4
  {
    var b0: int := bs[0];
    if |bs| == 1 then b0
    else
      var b1: int := bs[1];
      if |bs| == 2 then (b0 - 0xC0) * 64 + (b1 - 0x80)
      else
        var b2: int := bs[2];
        if |bs| == 3 then (b0 - 0xE0) * 4096 + (b1 - 0x80) * 64 + (b2 - 0x80)
        else
          var b3: int := bs[3];
          (b0 - 0xF0) * 262144 + (b1 - 0x80) * 4096 + (b2 - 0x80) * 64 + (b3 - 0x80)
  }

  /** Reads UTF-8 bytes back into characters; None for bytes that are not
      a sequence of encoded characters. */
  function Utf8Decode(bs: seq<byte>): Option<string>
    decreases |bs|
  {
    if bs == [] then Some([])
    else
      var k := LeadLength(bs[0]);
      if k == 0 || k > |bs| then None
      else
        match Utf8CharValue(bs[..k])
        case None => None
        case Some(c) =>
          match Utf8Decode(bs[k..])
          case None => None
          case Some(rest) => Some([c] + rest)
  }

  lemma Utf8CharRoundTrip(c: char)
    ensures LeadLength(Utf8Char(c)[0]) == |Utf8Char(c)|
    ensures Utf8CharValue(Utf8Char(c)) == Some(c)
  {
    var v := c as int;
    var bs := Utf8Char(c);
    if v < 0x80 {
    } else if v < 0x800 {
      TwoBytes(v);
    } else if v < 0x10000 {
      ThreeBytes(v);
    } else {
      FourBytes(v);
    }
    assert CodePoint(bs) == v;
    assert IsScalar(v);
    assert (v as char) == c;
  }

  lemma TwoBytes(v: int)
    requires 0x80 <= v < 0x800
    ensures var bs: seq<byte> := [0xC0 + v / 64, 0x80 + v % 64];
      LeadLength(bs[0]) == 2 && IsContinuation(bs[1]) && CodePoint(bs) == v
  {
  }

  lemma ThreeBytes(v: int)
    requires 0x800 <= v < 0x10000
    ensures var bs: seq<byte> := [0xE0 + v / 4096, 0x80 + (v / 64) % 64, 0x80 + v % 64];
      LeadLength(bs[0]) == 3 && IsContinuation(bs[1]) && IsContinuation(bs[2]) && CodePoint(bs) == v
  {
    var q1, d2 := v / 64, v % 64;
    var q2, d1 := q1 / 64, q1 % 64;
    assert v == q1 * 64 + d2 && q1 == q2 * 64 + d1;
    assert v == q2 * 4096 + d1 * 64 + d2;
    assert v / 4096 == q2;
  }

  lemma FourBytes(v: int)
    requires 0x10000 <= v < 0x110000
    ensures var bs: seq<byte> := [0xF0 + v / 262144, 0x80 + (v / 4096) % 64, 0x80 + (v / 64) % 64, 0x80 + v % 64];
      && LeadLength(bs[0]) == 4 && IsContinuation(bs[1]) && IsContinuation(bs[2]) && IsContinuation(bs[3])
      && CodePoint(bs) == v
  {
    var q1, d3 := v / 64, v % 64;
    var q2, d2 := q1 / 64, q1 % 64;
    var q3, d1 := q2 / 64, q2 % 64;
    assert v == q1 * 64 + d3 && q1 == q2 * 64 + d2 && q2 == q3 * 64 + d1;
    assert v == q2 * 4096 + d2 * 64 + d3;
    assert v / 4096 == q2;
    assert v == q3 * 262144 + d1 * 4096 + d2 * 64 + d3;
    assert v / 262144 == q3;
  }

  /** Decoding the UTF-8 bytes of a string gives the string back. */
  lemma {:induction false} Utf8RoundTrip(s: string)
    ensures Utf8Decode(Utf8(s)) == Some(s)
  {
    if s != [] {
      var head := Utf8Char(s[0]);
      Utf8CharRoundTrip(s[0]);
      Utf8RoundTrip(s[1..]);
      var bs := Utf8(s);
      assert bs == head + Utf8(s[1..]);
      assert bs[..|head|] == head;
      assert bs[|head|..] == Utf8(s[1..]);
      assert s == [s[0]] + s[1..];
    }
  }

  /** Characters below 128 are their own single byte. */
  lemma {:induction false} AsciiIsBytes(s: string)
    requires forall i | 0 <= i < |s| :: s[i] as int < 0x80
    ensures |Utf8(s)| == |s| && forall i | 0 <= i < |s| :: Utf8(s)[i] == s[i] as int
  {
    if s != [] {
      AsciiIsBytes(s[1..]);
    }
  }

  // ----------------------------------------------------------- base64

  /** The digit of a sextet in the alphabet of RFC 4648, table 1. */
  function Digit(v: int): char
    requires 0 <= v < 64
  {
    if v < 26 then ('A' as int + v) as char
    else if v < 52 then ('a' as int + v - 26) as char
    else if v < 62 then ('0' as int + v - 52) as char
    else if v == 62 then '+'
    else '/'
  }

  /** The sextet a digit stands for. */
  function DigitValue(c: char): Option<int>
  {
    if 'A' <= c <= 'Z' then Some(c as int - 'A' as int)
    else if 'a' <= c <= 'z' then Some(c as int - 'a' as int + 26)
    else if '0' <= c <= '9' then Some(c as int - '0' as int + 52)
    else if c == '+' then Some(62)
    else if c == '/' then Some(63)
    else None
  }

  lemma DigitRoundTrip(v: int)
    requires 0 <= v < 64
    ensures DigitValue(Digit(v)) == Some(v) && Digit(v) != '='
  {
  }

  /** Three bytes as four digits. */
  function Block(b0: byte, b1: byte, b2: byte): string
  {
    [Digit(b0 / 4), Digit((b0 % 4) * 16 + b1 / 16), Digit((b1 % 16) * 4 + b2 / 64), Digit(b2 % 64)]
  }

  /** The encoding of section 4 of RFC 4648: whole groups of three bytes,
      then one or two remaining bytes padded with `=`. */
  function Base64(bs: seq<byte>): (r: string)
    ensures |r| % 4 == 0
  {
    if |bs| == 0 then ""
    else if |bs| == 1 then [Digit(bs[0] / 4), Digit((bs[0] % 4) * 16), '=', '=']
    else if |bs| == 2 then [Digit(bs[0] / 4), Digit((bs[0] % 4) * 16 + bs[1] / 16), Digit((bs[1] % 16) * 4), '=']
    else Block(bs[0], bs[1], bs[2]) + Base64(bs[3..])
  }

  /** The bytes of one group of four characters. */
  function Quad(q: string): Option<seq<byte>>
    requires |q| == 4
  {
    var v0, v1 := DigitValue(q[0]), DigitValue(q[1]);
    if v0.None? || v1.None? then None
    else if q[2] == '=' && q[3] == '=' then
      Some([v0.value * 4 + v1.value / 16])
    else
      var v2 := DigitValue(q[2]);
      if v2.None? then None
      else if q[3] == '=' then
        Some([v0.value * 4 + v1.value / 16, (v1.value % 16) * 16 + v2.value / 4])
      else
        var v3 := DigitValue(q[3]);
        if v3.None? then None
        else Some([v0.value * 4 + v1.value / 16, (v1.value % 16) * 16 + v2.value / 4, (v2.value % 4) * 64 + v3.value])
  }

  /** Decoding: groups of four characters, padding only in the last group. */
  function Base64Decode(s: string): Option<seq<byte>>
  {
    if s == [] then Some([])
    else if |s| < 4 then None
    else
      match Quad(s[..4])
      case None => None
      case Some(head) =>
        if |head| < 3 && |s| > 4 then None
        else
          match Base64Decode(s[4..])
          case None => None
          case Some(rest) => Some(head + rest)
  }

  lemma BlockRoundTrip(b0: byte, b1: byte, b2: byte)
    ensures Quad(Block(b0, b1, b2)) == Some([b0, b1, b2])
  {
    var d0, d1, d2, d3 := b0 / 4, (b0 % 4) * 16 + b1 / 16, (b1 % 16) * 4 + b2 / 64, b2 % 64;
    DigitRoundTrip(d0);
    DigitRoundTrip(d1);
    DigitRoundTrip(d2);
    DigitRoundTrip(d3);
    assert d1 / 16 == b0 % 4 && d1 % 16 == b1 / 16;
    assert d2 / 4 == b1 % 16 && d2 % 4 == b2 / 64;
    assert d0 * 4 + d1 / 16 == b0;
    assert (d1 % 16) * 16 + d2 / 4 == b1;
    assert (d2 % 4) * 64 + d3 == b2;
  }

  lemma TailRoundTrip(bs: seq<byte>)
    requires 1 <= |bs| <= 2
    ensures Quad(Base64(bs)) == Some(bs)
  {
    if |bs| == 1 {
      OneTail(bs[0]);
      assert Base64(bs) == [Digit(bs[0] / 4), Digit((bs[0] % 4) * 16), '=', '='];
      assert [bs[0]] == bs;
    } else {
      TwoTail(bs[0], bs[1]);
      assert Base64(bs) == [Digit(bs[0] / 4), Digit((bs[0] % 4) * 16 + bs[1] / 16), Digit((bs[1] % 16) * 4), '='];
      assert [bs[0], bs[1]] == bs;
    }
  }

  lemma OneTail(b0: byte)
    ensures Quad([Digit(b0 / 4), Digit((b0 % 4) * 16), '=', '=']) == Some([b0])
  {
    DigitRoundTrip(b0 / 4);
    DigitRoundTrip((b0 % 4) * 16);
  }

  lemma TwoTail(b0: byte, b1: byte)
    ensures Quad([Digit(b0 / 4), Digit((b0 % 4) * 16 + b1 / 16), Digit((b1 % 16) * 4), '=']) == Some([b0, b1])
  {
    DigitRoundTrip(b0 / 4);
    DigitRoundTrip((b0 % 4) * 16 + b1 / 16);
    DigitRoundTrip((b1 % 16) * 4);
  }

  /** Decoding the base64 text of any bytes gives the bytes back. */
  lemma {:induction false} Base64RoundTrip(bs: seq<byte>)
    ensures Base64Decode(Base64(bs)) == Some(bs)
  {
    if |bs| == 1 || |bs| == 2 {
      TailRoundTrip(bs);
      DecodeCons(Base64(bs), [], []);
      assert Base64(bs) + [] == Base64(bs);
      assert bs + [] == bs;
    } else if |bs| >= 3 {
      var head, rest := Block(bs[0], bs[1], bs[2]), bs[3..];
      Base64Split(bs);
      BlockRoundTrip(bs[0], bs[1], bs[2]);
      Base64RoundTrip(rest);
      DecodeCons(head, Base64(rest), rest);
      assert bs == [bs[0], bs[1], bs[2]] + rest;
    }
  }

  /** Three or more bytes encode as a block followed by the rest. */
  lemma Base64Split(bs: seq<byte>)
    requires |bs| >= 3
    ensures Base64(bs) == Block(bs[0], bs[1], bs[2]) + Base64(bs[3..])
  {
  }

  /** A group of four that decodes, followed by text that decodes, decodes
      to the two byte runs joined, when the group is whole or last. */
  lemma DecodeCons(q: string, rest: string, restBytes: seq<byte>)
    requires |q| == 4 && Quad(q).Some? && (|Quad(q).value| == 3 || rest == [])
    requires Base64Decode(rest) == Some(restBytes)
    ensures Base64Decode(q + rest) == Some(Quad(q).value + restBytes)
  {
    var s := q + rest;
    assert s[..4] == q;
    assert s[4..] == rest;
  }

  /** Every character of the encoding is a digit of the alphabet or padding. */
  lemma Base64Alphabet(bs: seq<byte>)
    ensures forall i | 0 <= i < |Base64(bs)| :: Base64(bs)[i] == '=' || DigitValue(Base64(bs)[i]).Some?
    ensures |Base64(bs)| == 4 * ((|bs| + 2) / 3)
  {
    Base64Chars(bs);
    Base64Length(bs);
  }

  lemma {:induction false} Base64Chars(bs: seq<byte>)
    ensures forall i | 0 <= i < |Base64(bs)| :: Base64(bs)[i] == '=' || DigitValue(Base64(bs)[i]).Some?
  {
    if |bs| == 1 {
      DigitRoundTrip(bs[0] / 4);
      DigitRoundTrip((bs[0] % 4) * 16);
    } else if |bs| == 2 {
      DigitRoundTrip(bs[0] / 4);
      DigitRoundTrip((bs[0] % 4) * 16 + bs[1] / 16);
      DigitRoundTrip((bs[1] % 16) * 4);
    } else if |bs| >= 3 {
      var head, rest := Block(bs[0], bs[1], bs[2]), Base64(bs[3..]);
      Base64Chars(bs[3..]);
      BlockDigits(bs[0], bs[1], bs[2]);
      Base64Split(bs);
      forall i | 0 <= i < |Base64(bs)| ensures Base64(bs)[i] == '=' || DigitValue(Base64(bs)[i]).Some? {
        if i >= 4 {
          assert Base64(bs)[i] == rest[i - 4];
        }
      }
    }
  }

  lemma {:induction false} Base64Length(bs: seq<byte>)
    ensures |Base64(bs)| == 4 * ((|bs| + 2) / 3)
  {
    if |bs| >= 3 {
      Base64Length(bs[3..]);
      Base64Split(bs);
      assert (|bs| + 2) / 3 == (|bs[3..]| + 2) / 3 + 1;
    }
  }

  /** The four characters of a block are digits. */
  lemma BlockDigits(b0: byte, b1: byte, b2: byte)
    ensures forall i | 0 <= i < 4 :: DigitValue(Block(b0, b1, b2)[i]).Some?
  {
    DigitRoundTrip(b0 / 4);
    DigitRoundTrip((b0 % 4) * 16 + b1 / 16);
    DigitRoundTrip((b1 % 16) * 4 + b2 / 64);
    DigitRoundTrip(b2 % 64);
  }
}
