// Strict UTF-8 (section 4 of RFC 3629), as `bytes.decode("utf-8", errors="strict")`
// and `str.encode("utf-8")` implement it on Unicode scalar values.
module Utf8 {
  import opened Common

  predicate IsScalar(v: int) {
    0 <= v < 0xD800 || 0xE000 <= v < 0x11_0000
  }

  predicate Continuation(b: byte) {
    0x80 <= b < 0xC0
  }

  function Offset(b: byte, base: int): int {
    b as int - base
  }

  function EncodeChar(c: char): (bytes: seq<byte>)
    ensures 1 <= |bytes| <= 4
  {
    var v := c as int;
    if v < 0x80 then [v]
    else if v < 0x800 then [0xC0 + v / 64, 0x80 + v % 64]
    else if v < 0x1_0000 then [0xE0 + v / 4096, 0x80 + v / 64 % 64, 0x80 + v % 64]
    else [0xF0 + v / 262144, 0x80 + v / 4096 % 64, 0x80 + v / 64 % 64, 0x80 + v % 64]
  }

  function Encode(text: string): seq<byte> {
    if text == "" then [] else EncodeChar(text[0]) + Encode(text[1..])
  }

  // The value of one well-formed sequence at the head of `b`, and its length.
  function DecodeChar(b: seq<byte>): (r: Option<(char, nat)>)
    ensures r.Some? ==> 1 <= r.value.1 <= |b|
  {
    if |b| >= 1 && b[0] < 0x80 then
      Some((b[0] as char, 1))
    else if |b| >= 2 && 0xC2 <= b[0] < 0xE0 && Continuation(b[1]) then
      Some(((Offset(b[0], 0xC0) * 64 + Offset(b[1], 0x80)) as char, 2))
    else if |b| >= 3 && 0xE0 <= b[0] < 0xF0 && Continuation(b[1]) && Continuation(b[2]) then
      var v := Offset(b[0], 0xE0) * 4096 + Offset(b[1], 0x80) * 64 + Offset(b[2], 0x80);
      if v >= 0x800 && IsScalar(v) then Some((v as char, 3)) else None
    else if |b| >= 4 && 0xF0 <= b[0] < 0xF5 && Continuation(b[1]) && Continuation(b[2]) && Continuation(b[3]) then
      var v := Offset(b[0], 0xF0) * 262144 + Offset(b[1], 0x80) * 4096 + Offset(b[2], 0x80) * 64 + Offset(b[3], 0x80);
      if v >= 0x1_0000 && IsScalar(v) then Some((v as char, 4)) else None
    else None
  }

  function Decode(b: seq<byte>): Option<string> {
    if b == [] then Some("")
    else match DecodeChar(b)
      case None => None
      case Some(head) =>
        match Decode(b[head.1..])
        case None => None
        case Some(rest) => Some([head.0] + rest)
  }

  // Base-64 digits of a scalar value, and back.
  lemma SplitDigits(v: int)
    requires 0 <= v
    ensures v / 64 * 64 + v % 64 == v
    ensures v / 4096 * 4096 + v / 64 % 64 * 64 + v % 64 == v
    ensures v / 262144 * 262144 + v / 4096 % 64 * 4096 + v / 64 % 64 * 64 + v % 64 == v
  {
    assert v / 4096 == v / 64 / 64;
    assert v / 262144 == v / 4096 / 64;
  }

  lemma JoinDigits(a: int, b: int, c: int, d: int)
    requires 0 <= a && 0 <= b < 64 && 0 <= c < 64 && 0 <= d < 64
    ensures var v := a * 262144 + b * 4096 + c * 64 + d;
            v / 262144 == a && v / 4096 % 64 == b && v / 64 % 64 == c && v % 64 == d
  {
    var v := a * 262144 + b * 4096 + c * 64 + d;
    assert v / 64 == a * 4096 + b * 64 + c;
    assert v / 4096 == a * 64 + b;
  }

  lemma DecodeCharOfEncodeChar(c: char, rest: seq<byte>)
    ensures DecodeChar(EncodeChar(c) + rest) == Some((c, |EncodeChar(c)|))
  {
    var v := c as int;
    SplitDigits(v);
    var b := EncodeChar(c) + rest;
    if v < 0x80 {
      assert b[0] == v;
    } else if v < 0x800 {
      assert Offset(b[0], 0xC0) == v / 64 && Offset(b[1], 0x80) == v % 64;
    } else if v < 0x1_0000 {
      assert Offset(b[0], 0xE0) == v / 4096 && Offset(b[1], 0x80) == v / 64 % 64 && Offset(b[2], 0x80) == v % 64;
    } else {
      assert Offset(b[0], 0xF0) == v / 262144 && Offset(b[1], 0x80) == v / 4096 % 64;
      assert Offset(b[2], 0x80) == v / 64 % 64 && Offset(b[3], 0x80) == v % 64;
    }
  }

  lemma EncodeCharOfDecodeChar(b: seq<byte>)
    requires DecodeChar(b).Some?
    ensures EncodeChar(DecodeChar(b).value.0) == b[..DecodeChar(b).value.1]
  {
    if b[0] < 0x80 {
    } else if b[0] < 0xE0 {
      JoinDigits(0, 0, Offset(b[0], 0xC0), Offset(b[1], 0x80));
    } else if b[0] < 0xF0 {
      JoinDigits(0, Offset(b[0], 0xE0), Offset(b[1], 0x80), Offset(b[2], 0x80));
    } else {
      JoinDigits(Offset(b[0], 0xF0), Offset(b[1], 0x80), Offset(b[2], 0x80), Offset(b[3], 0x80));
    }
  }

  // The table of section 3 of RFC 3629: how many bytes a character takes, the bits that mark each byte, and the value
  // that the remaining bits spell.
  lemma EncodingTable(c: char)
    ensures var v, b := c as int, EncodeChar(c);
      && (v < 0x80 ==> b == [v])
      && (0x80 <= v < 0x800 ==>
            |b| == 2 && 0xC0 <= b[0] < 0xE0 && 0x80 <= b[1] < 0xC0
            && v == (b[0] as int - 0xC0) * 64 + (b[1] as int - 0x80))
      && (0x800 <= v < 0x1_0000 ==>
            |b| == 3 && 0xE0 <= b[0] < 0xF0 && 0x80 <= b[1] < 0xC0 && 0x80 <= b[2] < 0xC0
            && v == (b[0] as int - 0xE0) * 4096 + (b[1] as int - 0x80) * 64 + (b[2] as int - 0x80))
      && (0x1_0000 <= v ==>
            |b| == 4 && 0xF0 <= b[0] < 0xF8 && 0x80 <= b[1] < 0xC0 && 0x80 <= b[2] < 0xC0 && 0x80 <= b[3] < 0xC0
            && v == (b[0] as int - 0xF0) * 262144 + (b[1] as int - 0x80) * 4096 + (b[2] as int - 0x80) * 64 + (b[3] as int - 0x80))
  {
    SplitDigits(c as int);
  }

  // Strict decoding succeeds on exactly the encodings of scalar-value strings.
  lemma {:induction false} DecodeIsInverse(b: seq<byte>, text: string)
    ensures Decode(b) == Some(text) <==> b == Encode(text)
    decreases |b|
  {
    if b != [] && text != "" {
      if b == Encode(text) {
        var enc := EncodeChar(text[0]);
        DecodeCharOfEncodeChar(text[0], Encode(text[1..]));
        assert b[|enc|..] == Encode(text[1..]);
        DecodeIsInverse(b[|enc|..], text[1..]);
        assert text == [text[0]] + text[1..];
      }
      if Decode(b) == Some(text) {
        EncodeCharOfDecodeChar(b);
        var n := DecodeChar(b).value.1;
        assert text[1..] == Decode(b[n..]).value;
        DecodeIsInverse(b[n..], text[1..]);
        assert b == b[..n] + b[n..];
      }
    }
  }
}
