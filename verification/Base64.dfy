/** Base64 as section 4 of RFC 4648 encodes it and as Python's lenient `b64decode` reads it. */
module Base64 {
  import opened Collections
  import opened Utf8

  type Sextet = v: int | 0 <= v < 64

  function Symbol(v: Sextet): (c: char)
    ensures c != '=' && c as int < 128
  {
    if v < 26 then ('A' as int + v) as char
    else if v < 52 then ('a' as int + (v - 26)) as char
    else if v < 62 then ('0' as int + (v - 52)) as char
    else if v == 62 then '+' else '/'
  }

  /** The alphabet of table 1 of RFC 4648. */
  lemma UpperCaseSymbols(v: Sextet)
    requires v < 26
    ensures Symbol(v) == "ABCDEFGHIJKLMNOPQRSTUVWXYZ"[v]
  {
  }

  lemma LowerCaseSymbols(v: Sextet)
    requires 26 <= v < 52
    ensures Symbol(v) == "abcdefghijklmnopqrstuvwxyz"[v - 26]
  {
  }

  lemma OtherSymbols(v: Sextet)
    requires 52 <= v
    ensures Symbol(v) == "0123456789+/"[v - 52]
  {
  }

  function Lookup(c: char): Option<Sextet> {
    if 'A' <= c <= 'Z' then Some(c as int - 'A' as int)
    else if 'a' <= c <= 'z' then Some(c as int - 'a' as int + 26)
    else if '0' <= c <= '9' then Some(c as int - '0' as int + 52)
    else if c == '+' then Some(62)
    else if c == '/' then Some(63)
    else None
  }

  lemma LookupSymbol(v: Sextet)
    ensures Lookup(Symbol(v)) == Some(v)
  {
  }

  function Encode(b: seq<Byte>): string {
    if b == [] then ""
    else if |b| == 1 then
      [Symbol(b[0] / 4), Symbol(b[0] % 4 * 16), '=', '=']
    else if |b| == 2 then
      [Symbol(b[0] / 4), Symbol(b[0] % 4 * 16 + b[1] / 16), Symbol(b[1] % 16 * 4), '=']
    else
      [Symbol(b[0] / 4), Symbol(b[0] % 4 * 16 + b[1] / 16), Symbol(b[1] % 16 * 4 + b[2] / 64), Symbol(b[2] % 64)]
      + Encode(b[3..])
  }

  /**
   * The scanner of `binascii.a2b_base64`. `quad` counts the symbols of the current group, `left` holds
   * the bits not yet emitted and `pads` the padding seen. Bytes outside the alphabet are skipped, and a
   * padding that completes its group ends the scan whatever follows.
   */
  function Scan(quad: nat, left: nat, pads: nat, s: string): Option<seq<Byte>>
    requires quad < 4 && (quad == 0 || left < [64, 64, 16, 4][quad])
    decreases |s|
  {
    if s == "" then
      if quad == 0 then Some([]) else None
    else if s[0] == '=' then
      if quad >= 2 && quad + pads + 1 >= 4 then Some([])
      else Scan(quad, left, if quad >= 2 then pads + 1 else pads, s[1..])
    else
      match Lookup(s[0])
      case None => Scan(quad, left, pads, s[1..])
      case Some(v) =>
        if quad == 0 then Scan(1, v, 0, s[1..])
        else if quad == 1 then Emit(left * 4 + v / 16, Scan(2, v % 16, 0, s[1..]))
        else if quad == 2 then Emit(left * 16 + v / 4, Scan(3, v % 4, 0, s[1..]))
        else Emit(left * 64 + v, Scan(0, 0, 0, s[1..]))
  }

  function Emit(b: Byte, rest: Option<seq<Byte>>): Option<seq<Byte>> {
    match rest
    case None => None
    case Some(bytes) => Some([b] + bytes)
  }

  predicate AsciiOnly(s: string) {
    forall i :: 0 <= i < |s| ==> s[i] as int < 128
  }

  function Decode(s: string): Option<seq<Byte>> {
    if AsciiOnly(s) then Scan(0, 0, 0, s) else None
  }

  lemma ScanGroup(v0: Sextet, v1: Sextet, v2: Sextet, v3: Sextet, pads: nat, rest: string)
    ensures Scan(0, 0, pads, [Symbol(v0), Symbol(v1), Symbol(v2), Symbol(v3)] + rest)
         == Emit(v0 * 4 + v1 / 16, Emit(v1 % 16 * 16 + v2 / 4, Emit(v2 % 4 * 64 + v3, Scan(0, 0, 0, rest))))
  {
    var s := [Symbol(v0), Symbol(v1), Symbol(v2), Symbol(v3)] + rest;
    LookupSymbol(v0);
    LookupSymbol(v1);
    LookupSymbol(v2);
    LookupSymbol(v3);
    assert s[1..][1..] == s[2..];
    assert s[2..][1..] == s[3..];
    assert s[3..][1..] == rest;
    assert Scan(0, 0, pads, s) == Scan(1, v0, 0, s[1..]);
    assert Scan(1, v0, 0, s[1..]) == Emit(v0 * 4 + v1 / 16, Scan(2, v1 % 16, 0, s[2..]));
    assert Scan(2, v1 % 16, 0, s[2..]) == Emit(v1 % 16 * 16 + v2 / 4, Scan(3, v2 % 4, 0, s[3..]));
  }

  lemma ScanShortGroup(v0: Sextet, v1: Sextet, pads: nat)
    ensures Scan(0, 0, pads, [Symbol(v0), Symbol(v1), '=', '=']) == Some([v0 * 4 + v1 / 16])
  {
    var s := [Symbol(v0), Symbol(v1), '=', '='];
    LookupSymbol(v0);
    LookupSymbol(v1);
    assert s[1..][1..] == ['=', '='];
    assert ['=', '='][1..] == ['='];
    assert Scan(1, v0, 0, s[1..]) == Emit(v0 * 4 + v1 / 16, Scan(2, v1 % 16, 0, ['=', '=']));
    assert Scan(2, v1 % 16, 0, ['=', '=']) == Scan(2, v1 % 16, 1, ['=']) == Some([]);
    assert [v0 * 4 + v1 / 16] + [] == [v0 * 4 + v1 / 16];
    assert Scan(0, 0, pads, s) == Scan(1, v0, 0, s[1..]);
  }

  lemma ScanLongGroup(v0: Sextet, v1: Sextet, v2: Sextet, pads: nat)
    ensures Scan(0, 0, pads, [Symbol(v0), Symbol(v1), Symbol(v2), '='])
         == Some([v0 * 4 + v1 / 16, v1 % 16 * 16 + v2 / 4])
  {
    var s := [Symbol(v0), Symbol(v1), Symbol(v2), '='];
    LookupSymbol(v0);
    LookupSymbol(v1);
    LookupSymbol(v2);
    assert s[1..][1..] == [Symbol(v2), '='];
    assert [Symbol(v2), '='][1..] == ['='];
    assert Scan(1, v0, 0, s[1..]) == Emit(v0 * 4 + v1 / 16, Scan(2, v1 % 16, 0, [Symbol(v2), '=']));
    assert Scan(3, v2 % 4, 0, ['=']) == Some([]);
    assert [v1 % 16 * 16 + v2 / 4] + [] == [v1 % 16 * 16 + v2 / 4];
    assert [v0 * 4 + v1 / 16] + [v1 % 16 * 16 + v2 / 4] == [v0 * 4 + v1 / 16, v1 % 16 * 16 + v2 / 4];
    assert Scan(2, v1 % 16, 0, [Symbol(v2), '=']) == Emit(v1 % 16 * 16 + v2 / 4, Scan(3, v2 % 4, 0, ['=']));
    assert Scan(0, 0, pads, s) == Scan(1, v0, 0, s[1..]);
  }

  /** Regrouping three octets as four sextets loses no bit. */
  lemma Regroup(b0: Byte, b1: Byte, b2: Byte)
    ensures b0 / 4 * 4 + (b0 % 4 * 16 + b1 / 16) / 16 == b0
    ensures (b0 % 4 * 16 + b1 / 16) % 16 * 16 + (b1 % 16 * 4 + b2 / 64) / 4 == b1
    ensures (b1 % 16 * 4 + b2 / 64) % 4 * 64 + b2 % 64 == b2
  {
    assert (b0 % 4 * 16 + b1 / 16) / 16 == b0 % 4 && (b0 % 4 * 16 + b1 / 16) % 16 == b1 / 16;
    assert (b1 % 16 * 4 + b2 / 64) / 4 == b1 % 16 && (b1 % 16 * 4 + b2 / 64) % 4 == b2 / 64;
  }

  lemma ScanTriple(b: seq<Byte>, pads: nat, rest: string)
    requires |b| >= 3 && Scan(0, 0, 0, rest) == Some(b[3..])
    ensures Scan(0, 0, pads,
                 [Symbol(b[0] / 4), Symbol(b[0] % 4 * 16 + b[1] / 16),
                  Symbol(b[1] % 16 * 4 + b[2] / 64), Symbol(b[2] % 64)] + rest) == Some(b)
  {
    Regroup(b[0], b[1], b[2]);
    ScanGroup(b[0] / 4, b[0] % 4 * 16 + b[1] / 16, b[1] % 16 * 4 + b[2] / 64, b[2] % 64, pads, rest);
    assert b == [b[0]] + ([b[1]] + ([b[2]] + b[3..]));
  }

  lemma {:induction false} ScanEncoded(b: seq<Byte>, pads: nat)
    ensures Scan(0, 0, pads, Encode(b)) == Some(b)
  {
    if b == [] {
    } else if |b| == 1 {
      Regroup(b[0], 0, 0);
      ScanShortGroup(b[0] / 4, b[0] % 4 * 16, pads);
      assert b == [b[0]];
    } else if |b| == 2 {
      Regroup(b[0], b[1], 0);
      ScanLongGroup(b[0] / 4, b[0] % 4 * 16 + b[1] / 16, b[1] % 16 * 4, pads);
      assert b == [b[0], b[1]];
    } else {
      ScanEncoded(b[3..], 0);
      ScanTriple(b, pads, Encode(b[3..]));
    }
  }

  lemma {:induction false} EncodedIsAscii(b: seq<Byte>)
    ensures AsciiOnly(Encode(b))
  {
    if |b| < 3 {
    } else {
      EncodedIsAscii(b[3..]);
    }
  }

  /** Test vectors of section 10 of RFC 4648: the encodings of `f`, `fo`, `foo` and `foob`. */
  lemma TestVectors()
    ensures Encode([0x66]) == "Zg==" && Encode([0x66, 0x6F]) == "Zm8="
    ensures Encode([0x66, 0x6F, 0x6F]) == "Zm9v" && Encode([0x66, 0x6F, 0x6F, 0x62]) == "Zm9vYg=="
  {
    assert [0x66, 0x6F, 0x6F][3..] == [] && [0x66, 0x6F, 0x6F, 0x62][3..] == [0x62];
  }

  /** The lenient reader recovers every byte string from its encoding. */
  lemma DecodeEncode(b: seq<Byte>)
    ensures Decode(Encode(b)) == Some(b)
  {
    ScanEncoded(b, 0);
    EncodedIsAscii(b);
  }
}
