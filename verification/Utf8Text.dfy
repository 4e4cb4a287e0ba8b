/**
 The bytes that the framings work on as text: what is UTF-8 (section 3 of RFC 3629), and that trimming bytes is
 trimming the text they stand for.
 */
module Utf8Text {
  import opened Framing
  import Text

  /** Section 3 of RFC 3629. */
  function EncodeChar(c: char): (s: bytes)
    ensures 1 <= |s| <= 4
  {
    var n := c as int;
    if n < 0x80 then [n]
    else if n < 0x800 then [0xC0 + n / 64, 0x80 + n % 64]
    else if n < 0x10000 then [0xE0 + n / 4096, 0x80 + n / 64 % 64, 0x80 + n % 64]
    else [0xF0 + n / 262144, 0x80 + n / 4096 % 64, 0x80 + n / 64 % 64, 0x80 + n % 64]
  }

  function EncodeText(text: string): bytes {
    if text == [] then [] else EncodeChar(text[0]) + EncodeText(text[1..])
  }

  function Two(a: int, b: int): int {
    (a - 0xC0) * 64 + (b - 0x80)
  }

  function Three(a: int, b: int, c: int): int {
    (a - 0xE0) * 4096 + (b - 0x80) * 64 + (c - 0x80)
  }

  function Four(a: int, b: int, c: int, d: int): int {
    (a - 0xF0) * 262144 + (b - 0x80) * 4096 + (c - 0x80) * 64 + (d - 0x80)
  }

  /** The number that the bytes of one character stand for. */
  function Scalar(s: bytes): int
    requires 1 <= |s| <= 4
  {
    match |s|
    case 1 => s[0]
    case 2 => Two(s[0], s[1])
    case 3 => Three(s[0], s[1], s[2])
    case _ => Four(s[0], s[1], s[2], s[3])
  }

  lemma TwoParts(a: int, b: int)
    requires 0xC2 <= a <= 0xDF && Tail(b)
    ensures 0x80 <= Two(a, b) < 0x800 && Two(a, b) / 64 == a - 0xC0 && Two(a, b) % 64 == b - 0x80
  {
  }

  lemma ThreeParts(a: int, b: int, c: int)
    requires ThreeBytes(a, b) && Tail(c)
    ensures 0x800 <= Three(a, b, c) < 0x10000 && !(0xD800 <= Three(a, b, c) < 0xE000)
    ensures Three(a, b, c) / 4096 == a - 0xE0 && Three(a, b, c) / 64 % 64 == b - 0x80
    ensures Three(a, b, c) % 64 == c - 0x80
  {
    var upper := (a - 0xE0) * 64 + (b - 0x80);
    assert Three(a, b, c) == upper * 64 + (c - 0x80);
    assert Three(a, b, c) / 64 == upper;
  }

  lemma FourParts(a: int, b: int, c: int, d: int)
    requires FourBytes(a, b) && Tail(c) && Tail(d)
    ensures 0x10000 <= Four(a, b, c, d) < 0x110000
    ensures Four(a, b, c, d) / 262144 == a - 0xF0 && Four(a, b, c, d) / 4096 % 64 == b - 0x80
    ensures Four(a, b, c, d) / 64 % 64 == c - 0x80 && Four(a, b, c, d) % 64 == d - 0x80
  {
    var top := (a - 0xF0) * 64 + (b - 0x80);
    var upper := top * 64 + (c - 0x80);
    assert Four(a, b, c, d) == upper * 64 + (d - 0x80);
    assert Four(a, b, c, d) / 64 == upper;
    assert Four(a, b, c, d) / 4096 == top;
  }

  lemma EncodedHasLength(c: char, rest: bytes)
    ensures CharLength(EncodeChar(c) + rest) == |EncodeChar(c)|
  {
  }

  lemma ScalarIsEncoded(s: bytes)
    requires CharLength(s) > 0
    ensures
      var n := Scalar(s[..CharLength(s)]);
      (0 <= n < 0xD800 || 0xE000 <= n < 0x110000) && EncodeChar(n as char) == s[..CharLength(s)]
  {
    hide Two, Three, Four;
    match CharLength(s) {
      case 1 =>
      case 2 => TwoParts(s[0], s[1]);
      case 3 => ThreeParts(s[0], s[1], s[2]);
      case _ => FourParts(s[0], s[1], s[2], s[3]);
    }
  }

  lemma {:induction false} EncodedIsUtf8(text: string)
    ensures Utf8(EncodeText(text))
  {
    if text != [] {
      EncodedIsUtf8(text[1..]);
      EncodedHasLength(text[0], EncodeText(text[1..]));
    }
  }

  lemma {:induction false} Utf8IsEncoded(s: bytes) returns (text: string)
    requires Utf8(s)
    ensures s == EncodeText(text)
  {
    if s == [] {
      text := [];
    } else {
      var n := CharLength(s);
      ScalarIsEncoded(s);
      var rest := Utf8IsEncoded(s[n..]);
      text := [Scalar(s[..n]) as char] + rest;
      assert text[1..] == rest && s == s[..n] + s[n..];
    }
  }

  /** Bytes are UTF-8 if and only if they are the encoding of some text. */
  lemma Utf8Exactly(s: bytes)
    ensures Utf8(s) <==> exists text :: s == EncodeText(text)
  {
    if Utf8(s) {
      var text := Utf8IsEncoded(s);
    }
    if text :| s == EncodeText(text) {
      EncodedIsUtf8(text);
    }
  }

  // ---- White space ----

  /** White space at the start of the bytes is white space at the start of the text. */
  lemma SpaceIsEncoded(c: char, rest: bytes)
    ensures SpaceAtStart(EncodeChar(c) + rest) == if Text.IsSpace(c) then |EncodeChar(c)| else 0
  {
  }

  lemma SpaceIsEncodedAtEnd(before: bytes, c: char)
    ensures SpaceAtEnd(before + EncodeChar(c)) == if Text.IsSpace(c) then |EncodeChar(c)| else 0
  {
  }

  lemma {:induction false} EncodeJoins(a: string, b: string)
    ensures EncodeText(a + b) == EncodeText(a) + EncodeText(b)
  {
    if a == [] {
      assert a + b == b;
    } else {
      assert (a + b)[1..] == a[1..] + b;
      EncodeJoins(a[1..], b);
    }
  }

  lemma {:induction false} TrimStartIsEncoded(text: string)
    ensures TrimStart(EncodeText(text)) == EncodeText(Text.TrimStart(text))
  {
    if text != [] {
      var rest := EncodeText(text[1..]);
      SpaceIsEncoded(text[0], rest);
      assert (EncodeChar(text[0]) + rest)[|EncodeChar(text[0])|..] == rest;
      TrimStartIsEncoded(text[1..]);
    }
  }

  lemma {:induction false} TrimEndIsEncoded(text: string)
    ensures TrimEnd(EncodeText(text)) == EncodeText(Text.TrimEnd(text))
  {
    if text != [] {
      var n := |text| - 1;
      var front := EncodeText(text[..n]);
      assert text == text[..n] + [text[n]];
      EncodeJoins(text[..n], [text[n]]);
      assert EncodeText([text[n]]) == EncodeChar(text[n]) + EncodeText([text[n]][1..]) == EncodeChar(text[n]);
      SpaceIsEncodedAtEnd(front, text[n]);
      assert (front + EncodeChar(text[n]))[..|front|] == front;
      TrimEndIsEncoded(text[..n]);
    }
  }

  /** Trimming the bytes of a line is trimming the line. */
  lemma TrimIsEncoded(text: string)
    ensures Trim(EncodeText(text)) == EncodeText(Text.Trim(text))
  {
    TrimStartIsEncoded(text);
    TrimEndIsEncoded(Text.TrimStart(text));
  }
}
