/** The UTF-8 encoding of RFC 3629, as Python's strict `str.encode` and `bytes.decode` apply it. */
module Utf8 {
  import opened Collections

  type Byte = b: int | 0 <= b < 256

  function EncodeChar(c: char): (bytes: seq<Byte>)
    ensures 1 <= |bytes| <= 4
  {
    var n := c as int;
    if n < 0x80 then [n]
    else if n < 0x800 then [0xC0 + n / 64, 0x80 + n % 64]
    else if n < 0x10000 then [0xE0 + n / 4096, 0x80 + n / 64 % 64, 0x80 + n % 64]
    else [0xF0 + n / 262144, 0x80 + n / 4096 % 64, 0x80 + n / 64 % 64, 0x80 + n % 64]
  }

  function Encode(s: string): seq<Byte> {
    if s == "" then [] else EncodeChar(s[0]) + Encode(s[1..])
  }

  /** The lengths of section 3 of RFC 3629, and characters from the examples of its section 7. */
  lemma EncodedExamples()
    ensures EncodeChar('A') == [0x41] && EncodeChar('\U{0391}') == [0xCE, 0x91]
    ensures EncodeChar('\U{2262}') == [0xE2, 0x89, 0xA2] && EncodeChar('\U{D55C}') == [0xED, 0x95, 0x9C]
    ensures EncodeChar('\U{233B4}') == [0xF0, 0xA3, 0x8E, 0xB4]
  {
    assert 'A' as int == 0x41;
  }

  predicate Continuation(b: Byte) {
    0x80 <= b < 0xC0
  }

  /** The code point carried by a lead byte, with its marker `lead`, and continuation bytes. */
  function Point2(b0: int, b1: int): int {
    (b0 - 0xC0) * 64 + (b1 - 0x80)
  }

  function Point3(b0: int, b1: int, b2: int): int {
    (b0 - 0xE0) * 4096 + (b1 - 0x80) * 64 + (b2 - 0x80)
  }

  function Point4(b0: int, b1: int, b2: int, b3: int): int {
    (b0 - 0xF0) * 262144 + (b1 - 0x80) * 4096 + (b2 - 0x80) * 64 + (b3 - 0x80)
  }

  /** Reads one character off the front; overlong forms and surrogates are errors. */
  function DecodeChar(b: seq<Byte>): (r: Option<(char, nat)>)
    requires b != []
    ensures r.Some? ==> 1 <= r.value.1 <= |b|
  {
    if b[0] < 0x80 then
      Some((b[0] as char, 1))
    else if b[0] < 0xC2 then
      None
    else if b[0] < 0xE0 then
      if |b| >= 2 && Continuation(b[1]) then Some((Point2(b[0], b[1]) as char, 2)) else None
    else if b[0] < 0xF0 then
      if |b| >= 3 && Continuation(b[1]) && Continuation(b[2]) then
        var n := Point3(b[0], b[1], b[2]);
        if n < 0x800 || 0xD800 <= n < 0xE000 then None else Some((n as char, 3))
      else None
    else if b[0] < 0xF5 then
      if |b| >= 4 && Continuation(b[1]) && Continuation(b[2]) && Continuation(b[3]) then
        var n := Point4(b[0], b[1], b[2], b[3]);
        if n < 0x10000 || n >= 0x110000 then None else Some((n as char, 4))
      else None
    else
      None
  }

  function Decode(b: seq<Byte>): Option<string> {
    if b == [] then Some("")
    else
      match DecodeChar(b)
      case None => None
      case Some((c, used)) =>
        match Decode(b[used..])
        case None => None
        case Some(rest) => Some([c] + rest)
  }

  lemma EncodedPoint3(n: int)
    requires 0x800 <= n < 0x10000
    ensures Point3(0xE0 + n / 4096, 0x80 + n / 64 % 64, 0x80 + n % 64) == n
  {
    assert n / 4096 == n / 64 / 64;
  }

  lemma EncodedPoint4(n: int)
    requires 0x10000 <= n < 0x110000
    ensures Point4(0xF0 + n / 262144, 0x80 + n / 4096 % 64, 0x80 + n / 64 % 64, 0x80 + n % 64) == n
  {
    assert n / 4096 == n / 64 / 64;
    assert n / 262144 == n / 4096 / 64;
  }

  lemma DecodeCharLocal(b: seq<Byte>, rest: seq<Byte>)
    requires b != [] && DecodeChar(b).Some?
    ensures DecodeChar(b + rest) == DecodeChar(b)
  {
    assert forall i :: 0 <= i < |b| ==> (b + rest)[i] == b[i];
  }

  lemma DecodeEncodedChar(c: char)
    ensures DecodeChar(EncodeChar(c)) == Some((c, |EncodeChar(c)|))
  {
    var n := c as int;
    if n < 0x800 {
    } else if n < 0x10000 {
      EncodedPoint3(n);
    } else {
      EncodedPoint4(n);
    }
  }

  lemma EncodeCharOfDecoded(b: seq<Byte>)
    requires b != [] && DecodeChar(b).Some?
    ensures EncodeChar(DecodeChar(b).value.0) == b[..DecodeChar(b).value.1]
  {
    var n := DecodeChar(b).value.0 as int;
    if b[0] < 0x80 {
    } else if b[0] < 0xE0 {
      assert n / 64 == b[0] - 0xC0;
    } else if b[0] < 0xF0 {
      var lead: int := b[0] - 0xE0;
      assert n / 4096 == lead;
      assert n / 64 == lead * 64 + (b[1] - 0x80);
    } else {
      assert n / 262144 == b[0] - 0xF0;
      var lead: int := b[0] - 0xF0;
      assert n / 4096 == lead * 64 + (b[1] - 0x80);
      assert n / 64 == (lead * 64 + (b[1] - 0x80)) * 64 + (b[2] - 0x80);
    }
  }

  /** Decoding undoes encoding. */
  lemma {:induction false} DecodeEncode(s: string)
    ensures Decode(Encode(s)) == Some(s)
  {
    if s == "" {
    } else {
      DecodeEncodedChar(s[0]);
      DecodeCharLocal(EncodeChar(s[0]), Encode(s[1..]));
      DecodeEncode(s[1..]);
      assert Encode(s)[|EncodeChar(s[0])|..] == Encode(s[1..]);
      assert s == [s[0]] + s[1..];
    }
  }

  /** Encoding undoes decoding: no two byte strings decode to the same text. */
  lemma {:induction false} EncodeDecode(b: seq<Byte>)
    requires Decode(b).Some?
    ensures Encode(Decode(b).value) == b
  {
    if b == [] {
    } else {
      var used := DecodeChar(b).value.1;
      EncodeCharOfDecoded(b);
      EncodeDecode(b[used..]);
      assert Decode(b).value == [DecodeChar(b).value.0] + Decode(b[used..]).value;
      assert b == b[..used] + b[used..];
    }
  }

  predicate Ascii(b: seq<Byte>) {
    forall i :: 0 <= i < |b| ==> b[i] < 128
  }

  function AsciiText(b: seq<Byte>): (s: string)
    requires Ascii(b)
    ensures |s| == |b|
  {
    seq(|b|, i requires 0 <= i < |b| => b[i] as char)
  }

  lemma {:induction false} DecodeAscii(b: seq<Byte>)
    requires Ascii(b)
    ensures Decode(b) == Some(AsciiText(b))
  {
    if b == [] {
    } else {
      DecodeAscii(b[1..]);
      assert AsciiText(b) == [b[0] as char] + AsciiText(b[1..]);
    }
  }
}
