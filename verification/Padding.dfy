/** The block padding of section 6.3 of RFC 5652, for the cipher's 16-byte blocks. */
module Padding {
  import opened Collections
  import opened Utf8

  const BLOCK := 16

  function Fill(n: Byte): (f: seq<Byte>)
    ensures |f| == n
  {
    seq(n, i => n)
  }

  function Pad(data: seq<Byte>): (padded: seq<Byte>)
    ensures |padded| % BLOCK == 0 && |padded| > |data|
  {
    data + Fill(BLOCK - |data| % BLOCK)
  }

  function Unpad(padded: seq<Byte>): Option<seq<Byte>> {
    if padded == [] || |padded| % BLOCK != 0 then None
    else
      var n := padded[|padded| - 1];
      if n < 1 || n > BLOCK then None
      else if padded[|padded| - n..] != Fill(n) then None
      else Some(padded[..|padded| - n])
  }

  /** Between one and sixteen octets are added, each of them their number, to the next multiple of sixteen. */
  lemma PadAddsItsLength(data: seq<Byte>)
    ensures var padded, n := Pad(data), 16 - |data| % 16;
      && |padded| == |data| + n && |padded| == (|data| / 16 + 1) * 16
      && padded[..|data|] == data
      && forall i :: |data| <= i < |padded| ==> padded[i] == n
  {
  }

  /** Unpadding succeeds on the padded strings, gives back what was padded, and rejects everything else. */
  lemma UnpadInvertsPad(padded: seq<Byte>, data: seq<Byte>)
    ensures Unpad(padded) == Some(data) <==> padded == Pad(data)
  {
    if padded == Pad(data) {
      var n := BLOCK - |data| % BLOCK;
      assert padded[|data|..] == Fill(n);
      assert padded[|padded| - 1] == n;
      assert padded[..|data|] == data;
    }
    if Unpad(padded) == Some(data) {
      var n := padded[|padded| - 1];
      assert padded == data + padded[|data|..];
      assert |data| % BLOCK == (|padded| - n) % BLOCK;
    }
  }
}
