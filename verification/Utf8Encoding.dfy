/** UTF-8 written out (section 3 of RFC 3629), and that reading and writing are inverse: what the other modules
    say of decoded text and of lengths in bytes rests on it. */
module Utf8Encoding {
  import opened Utf8

  /** The bytes of one character: the fewest that hold its number. */
  function EncodeChar(c: char): (b: seq<byte>)
    ensures 1 <= |b| <= 4
  {
    var v := c as int;
    if v < 0x80 then [v]
    else if v < 0x800 then [0xC0 + v / 0x40, 0x80 + v % 0x40]
    else if v < 0x1_0000 then [0xE0 + v / 0x1000, 0x80 + v / 0x40 % 0x40, 0x80 + v % 0x40]
    else [0xF0 + v / 0x4_0000, 0x80 + v / 0x1000 % 0x40, 0x80 + v / 0x40 % 0x40, 0x80 + v % 0x40]
  }

  function Encode(text: string): seq<byte> {
    if text == "" then [] else EncodeChar(text[0]) + Encode(text[1..])
  }

  /** A character reads back as itself. */
  lemma CharRoundTrip(c: char)
    ensures IsChar(EncodeChar(c)) && CodePoint(EncodeChar(c)) == c as int
  {
    var v := c as int;
    if 0x800 <= v < 0x1_0000 {
      ThreeBytes(v);
    } else if 0x1_0000 <= v {
      FourBytes(v);
    }
  }

  lemma ThreeBytes(v: nat)
    requires 0x800 <= v < 0x1_0000 && (v < 0xD800 || 0xE000 <= v)
    ensures var b := [0xE0 + v / 0x1000, 0x80 + v / 0x40 % 0x40, 0x80 + v % 0x40];
            v / 0x1000 < 16 && IsChar(b) && CodePoint(b) == v
  {
    assert v == v / 0x1000 * 0x1000 + v / 0x40 % 0x40 * 0x40 + v % 0x40;
  }

  lemma FourBytes(v: nat)
    requires 0x1_0000 <= v < 0x11_0000
    ensures var b := [0xF0 + v / 0x4_0000, 0x80 + v / 0x1000 % 0x40, 0x80 + v / 0x40 % 0x40, 0x80 + v % 0x40];
            v / 0x4_0000 < 5 && IsChar(b) && CodePoint(b) == v
  {
    assert v == v / 0x4_0000 * 0x4_0000 + v / 0x1000 % 0x40 * 0x1000 + v / 0x40 % 0x40 * 0x40 + v % 0x40;
  }

  /** A character has one well-formed sequence only. */
  lemma OneSequence(b: seq<byte>)
    requires IsChar(b)
    ensures EncodeChar(CodePoint(b) as char) == b
  {
    if |b| == 1 {
      assert b == [b[0]];
    } else if |b| == 2 {
      TwoAgain(b);
    } else if |b| == 3 {
      ThreeAgain(b);
    } else {
      FourAgain(b);
    }
    hide EncodeChar, CodePoint;
  }

  lemma TwoAgain(b: seq<byte>)
    requires IsChar(b) && |b| == 2
    ensures EncodeChar(CodePoint(b) as char) == b
  {
    Parts(0, 0, b[0] - 0xC0, Low6(b[1]));
  }

  lemma ThreeAgain(b: seq<byte>)
    requires IsChar(b) && |b| == 3
    ensures EncodeChar(CodePoint(b) as char) == b
  {
    Parts(0, b[0] - 0xE0, Low6(b[1]), Low6(b[2]));
  }

  lemma FourAgain(b: seq<byte>)
    requires IsChar(b) && |b| == 4
    ensures EncodeChar(CodePoint(b) as char) == b
  {
    Parts(b[0] - 0xF0, Low6(b[1]), Low6(b[2]), Low6(b[3]));
  }

  /** The digits of a number to the base 64. */
  lemma Parts(a: nat, b: nat, c: nat, d: nat)
    requires b < 64 && c < 64 && d < 64
    ensures var v := a * 0x4_0000 + b * 0x1000 + c * 0x40 + d;
            && v % 0x40 == d && v / 0x40 % 0x40 == c && v / 0x40 == a * 0x1000 + b * 0x40 + c
            && v / 0x1000 % 0x40 == b && v / 0x1000 == a * 0x40 + b && v / 0x4_0000 == a
  {
    var v := a * 0x4_0000 + b * 0x1000 + c * 0x40 + d;
    var w := a * 0x1000 + b * 0x40 + c;
    LastDigit(w, d);
    LastDigit(a * 0x40 + b, c);
    LastDigit(a, b);
    assert v == w * 0x40 + d && v / 0x1000 == v / 0x40 / 0x40 && v / 0x4_0000 == v / 0x1000 / 0x40;
  }

  lemma LastDigit(w: nat, d: nat)
    requires d < 0x40
    ensures (w * 0x40 + d) / 0x40 == w && (w * 0x40 + d) % 0x40 == d
  {
  }

  /** Every text reads back as itself. */
  lemma {:induction false} TextRoundTrip(text: string)
    ensures Valid(Encode(text)) && Decode(Encode(text)) == text
  {
    if text != "" {
      CharRoundTrip(text[0]);
      TextRoundTrip(text[1..]);
      hide EncodeChar, IsChar, CodePoint, ValidFrom, Decode;
      DecodeHead(EncodeChar(text[0]), Encode(text[1..]));
    }
  }

  /** And well-formed bytes are written as they were read. */
  lemma {:induction false} BytesRoundTrip(s: seq<byte>)
    requires Valid(s)
    ensures Encode(Decode(s)) == s
    decreases |s|
  {
    if s != [] {
      var n := LeadLength(s[0]);
      ValidTail(s);
      OneSequence(s[..n]);
      BytesRoundTrip(s[n..]);
      assert Decode(s) == [CodePoint(s[..n]) as char] + Decode(s[n..]);
      hide EncodeChar, IsChar, CodePoint, ValidFrom, Decode;
      assert s == s[..n] + s[n..];
    }
  }
}
