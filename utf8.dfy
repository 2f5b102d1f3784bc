/** The UTF-8 validity that `String::from_utf8` enforces, and the source's
    `String` as the UTF-8 bytes it holds. The well-formed byte sequences are
    those of section 4 of RFC 3629: no overlong forms, no surrogates, nothing
    above U+10FFFF. */
module Utf8 {
  import opened Bytes
  import opened Wrappers

  predicate InRange(b: byte, lo: byte, hi: byte)
  {
    lo <= b <= hi
  }

  /** Length of a three-byte character whose second byte lies in [lo, hi]. */
  function ThreeByteLength(s: seq<byte>, lo: byte, hi: byte): (n: nat)
    ensures n == 0 || (n == 3 <= |s|)
  {
    if 3 <= |s| && InRange(s[1], lo, hi) && InRange(s[2], 0x80, 0xBF) then 3 else 0
  }

  /** Length of a four-byte character whose second byte lies in [lo, hi]. */
  function FourByteLength(s: seq<byte>, lo: byte, hi: byte): (n: nat)
    ensures n == 0 || (n == 4 <= |s|)
  {
    if 4 <= |s| && InRange(s[1], lo, hi) && InRange(s[2], 0x80, 0xBF) && InRange(s[3], 0x80, 0xBF)
    then 4 else 0
  }

  /** The length of the well-formed character that `s` starts with, or 0 when
      `s` does not start with one. */
  function LeadingCharLength(s: seq<byte>): (n: nat)
    ensures n <= |s| && n <= 4
  {
    if |s| == 0 then 0
    else if s[0] <= 0x7F then 1
    else if InRange(s[0], 0xC2, 0xDF) then
      (if 2 <= |s| && InRange(s[1], 0x80, 0xBF) then 2 else 0)
    else if s[0] == 0xE0 then ThreeByteLength(s, 0xA0, 0xBF)
    else if InRange(s[0], 0xE1, 0xEC) || InRange(s[0], 0xEE, 0xEF) then ThreeByteLength(s, 0x80, 0xBF)
    else if s[0] == 0xED then ThreeByteLength(s, 0x80, 0x9F)
    else if s[0] == 0xF0 then FourByteLength(s, 0x90, 0xBF)
    else if InRange(s[0], 0xF1, 0xF3) then FourByteLength(s, 0x80, 0xBF)
    else if s[0] == 0xF4 then FourByteLength(s, 0x80, 0x8F)
    else 0
  }

  /** `s` is a sequence of well-formed characters. */
  predicate IsUtf8(s: seq<byte>)
    decreases |s|
  {
    s == [] || (LeadingCharLength(s) > 0 && IsUtf8(s[LeadingCharLength(s)..]))
  }

  /** The source's `String`: bytes that are valid UTF-8. */
  type Text = s: seq<byte> | IsUtf8(s) witness []

  /** `String::from_utf8(bytes)`; `None` is the error that the source unwraps. */
  function FromUtf8(bytes: seq<byte>): (r: Option<Text>)
    ensures r.Some? <==> IsUtf8(bytes)
    ensures r.Some? ==> r.value == bytes
  {
    if IsUtf8(bytes) then Some(bytes) else None
  }

  /** The UTF-8 encoding of one Unicode scalar value (a Dafny `char`). */
  function EncodeChar(c: char): (bs: seq<byte>)
    ensures 1 <= |bs| <= 4
  {
    var v := c as int;
    if v < 0x80 then [v as byte]
    else if v < 0x800 then [(0xC0 + v / 0x40) as byte, (0x80 + v % 0x40) as byte]
    else if v < 0x1_0000 then
      [(0xE0 + v / 0x1000) as byte, (0x80 + v / 0x40 % 0x40) as byte, (0x80 + v % 0x40) as byte]
    else
      [(0xF0 + v / 0x4_0000) as byte, (0x80 + v / 0x1000 % 0x40) as byte,
       (0x80 + v / 0x40 % 0x40) as byte, (0x80 + v % 0x40) as byte]
  }

  /** The UTF-8 encoding of a string, as Rust's `String` stores it. */
  function Encode(s: string): (bs: seq<byte>)
  {
    if s == [] then [] else EncodeChar(s[0]) + Encode(s[1..])
  }

  /** The encoding of one character is read back as one character of the
      same length, whatever follows it. */
  lemma LeadingCharOfEncoding(c: char, rest: seq<byte>)
    ensures LeadingCharLength(EncodeChar(c) + rest) == |EncodeChar(c)|
  {
    var v := c as int;
    assert v < 0xD800 || 0xE000 <= v < 0x11_0000;
  }

  /** Every string encodes to valid UTF-8, so `String::from_utf8` accepts
      the bytes of every `String`. */
  lemma {:induction false} EncodeIsUtf8(s: string)
    ensures IsUtf8(Encode(s))
  {
    if s != [] {
      var head, tail := EncodeChar(s[0]), Encode(s[1..]);
      LeadingCharOfEncoding(s[0], tail);
      assert (head + tail)[|head|..] == tail;
      EncodeIsUtf8(s[1..]);
    }
  }

  /** The scalar value of a well-formed two-byte character. */
  function DecodeTwo(s: seq<byte>): (c: char)
    requires 2 <= |s| && InRange(s[0], 0xC2, 0xDF) && InRange(s[1], 0x80, 0xBF)
    ensures EncodeChar(c) == s[..2]
  {
    var a, b := s[0] as int - 0xC0, s[1] as int - 0x80;
    var v := a * 0x40 + b;
    assert v / 0x40 == a && v % 0x40 == b;
    v as char
  }

  /** The scalar value of a well-formed three-byte character. */
  function DecodeThree(s: seq<byte>): (c: char)
    requires 3 <= |s| && InRange(s[0], 0xE0, 0xEF)
    requires InRange(s[1], 0x80, 0xBF) && InRange(s[2], 0x80, 0xBF)
    requires s[0] == 0xE0 ==> 0xA0 <= s[1]
    requires s[0] == 0xED ==> s[1] <= 0x9F
    ensures EncodeChar(c) == s[..3]
  {
    var a, b, d := s[0] as int - 0xE0, s[1] as int - 0x80, s[2] as int - 0x80;
    var v := a * 0x1000 + b * 0x40 + d;
    assert v / 0x40 == a * 0x40 + b && v % 0x40 == d;
    assert v / 0x1000 == a && v / 0x40 % 0x40 == b;
    v as char
  }

  /** The scalar value of a well-formed four-byte character. */
  function DecodeFour(s: seq<byte>): (c: char)
    requires 4 <= |s| && InRange(s[0], 0xF0, 0xF4)
    requires InRange(s[1], 0x80, 0xBF) && InRange(s[2], 0x80, 0xBF) && InRange(s[3], 0x80, 0xBF)
    requires s[0] == 0xF0 ==> 0x90 <= s[1]
    requires s[0] == 0xF4 ==> s[1] <= 0x8F
    ensures EncodeChar(c) == s[..4]
  {
    var a, b, d, e := s[0] as int - 0xF0, s[1] as int - 0x80, s[2] as int - 0x80, s[3] as int - 0x80;
    var v := a * 0x4_0000 + b * 0x1000 + d * 0x40 + e;
    assert v / 0x40 == a * 0x1000 + b * 0x40 + d && v % 0x40 == e;
    assert v / 0x1000 == a * 0x40 + b && v / 0x40 % 0x40 == d;
    assert v / 0x4_0000 == a && v / 0x1000 % 0x40 == b;
    v as char
  }

  /** The character that a well-formed sequence starts with: its encoding is
      exactly the bytes it was read from. */
  function DecodeChar(s: seq<byte>): (c: char)
    requires LeadingCharLength(s) > 0
    ensures EncodeChar(c) == s[..LeadingCharLength(s)]
  {
    if s[0] <= 0x7F then s[0] as int as char
    else if s[0] <= 0xDF then DecodeTwo(s)
    else if s[0] <= 0xEF then DecodeThree(s)
    else DecodeFour(s)
  }

  /** The string that valid UTF-8 bytes hold. */
  function Decode(s: seq<byte>): (str: string)
    requires IsUtf8(s)
    decreases |s|
  {
    if s == [] then [] else [DecodeChar(s)] + Decode(s[LeadingCharLength(s)..])
  }

  /** Encoding the decoded string gives the bytes back. */
  lemma {:induction false} DecodeThenEncode(s: seq<byte>)
    requires IsUtf8(s)
    ensures Encode(Decode(s)) == s
  {
    if s != [] {
      var n := LeadingCharLength(s);
      var head, tail := s[..n], s[n..];
      assert s == head + tail;
      DecodeThenEncode(tail);
      EncodeCons(DecodeChar(s), Decode(tail));
    }
  }

  /** Encoding distributes over prepending a character. */
  lemma EncodeCons(c: char, rest: string)
    ensures Encode([c] + rest) == EncodeChar(c) + Encode(rest)
  {
    assert ([c] + rest)[1..] == rest;
  }

  /** Everything the check accepts is the encoding of some string: together
      with `EncodeIsUtf8`, valid UTF-8 is exactly the set of encodings, so
      `String::from_utf8` fails on precisely the bytes no `String` holds. */
  lemma Utf8IsEncoding(s: seq<byte>)
    requires IsUtf8(s)
    ensures exists str: string :: Encode(str) == s
  {
    DecodeThenEncode(s);
  }

  /** A byte sequence of ASCII characters only is valid UTF-8. */
  lemma {:induction false} AsciiIsUtf8(s: seq<byte>)
    requires forall i :: 0 <= i < |s| ==> s[i] <= 0x7F
    ensures IsUtf8(s)
  {
    if s != [] {
      AsciiIsUtf8(s[1..]);
    }
  }

  /** ASCII bytes as a `String`. */
  function AsciiText(s: seq<byte>): (t: Text)
    requires forall i :: 0 <= i < |s| ==> s[i] <= 0x7F
    ensures t == s
  {
    AsciiIsUtf8(s);
    s
  }

  /** An overlong encoding of U+0000, a lone continuation byte and an
      encoded surrogate (U+D800) are refused. */
  lemma InvalidExamples()
    ensures !IsUtf8([0xC0, 0x80])
    ensures !IsUtf8([0x80])
    ensures !IsUtf8([0xED, 0xA0, 0x80])
  {
  }
}
