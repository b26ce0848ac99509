/**
 * The launcher's version-1 payload and the server's reading of it. Ciphers and JSON are parameters:
 * only that they undo each other is used. Padding, Base64 and UTF-8 are concrete.
 */
module Payload {
  import opened Collections
  import opened Utf8
  import Base64
  import Padding

  const LAUNCHER_VERSION := 1

  /** The fields of the outer JSON object; a missing version is `None`. */
  datatype Envelope = Envelope(version: Option<int>, key: string, connInfo: string)

  datatype Library<!T> = Library(
    aesEncrypt: (seq<Byte>, seq<Byte>) -> seq<Byte>,
    aesDecrypt: (seq<Byte>, seq<Byte>) -> Option<seq<Byte>>,
    rsaEncrypt: seq<Byte> -> seq<Byte>,
    rsaDecrypt: seq<Byte> -> seq<Byte>,
    dumpEnvelope: Envelope -> string,
    loadEnvelope: string -> Option<Envelope>,
    dumpInfo: T -> string,
    loadInfo: string -> Option<T>)

  /** AES on whole blocks and RSA on AES keys are inverted by their decryptions; so is JSON by its reader. */
  ghost predicate MutuallyInverse<T(!new)>(lib: Library<T>) {
    && (forall key: seq<Byte>, data: seq<Byte> :: |key| == 16 && |data| % Padding.BLOCK == 0 ==>
          lib.aesDecrypt(key, lib.aesEncrypt(key, data)) == Some(data))
    && (forall key: seq<Byte> :: |key| == 16 ==> lib.rsaDecrypt(lib.rsaEncrypt(key)) == key)
    && (forall e :: lib.loadEnvelope(lib.dumpEnvelope(e)) == Some(e))
    && (forall info :: lib.loadInfo(lib.dumpInfo(info)) == Some(info))
  }

  /** What the launcher puts on the wire for `info`, having drawn `aesKey`. */
  function Encrypt<T>(lib: Library<T>, aesKey: seq<Byte>, info: T): string {
    var encrypted := lib.aesEncrypt(aesKey, Padding.Pad(Utf8.Encode(lib.dumpInfo(info))));
    var envelope := Envelope(
      Some(LAUNCHER_VERSION), Base64.Encode(lib.rsaEncrypt(aesKey)), Base64.Encode(encrypted));
    Base64.Encode(Utf8.Encode(lib.dumpEnvelope(envelope)))
  }

  /** The server's reading; `None` is any of its exceptions. */
  function DecodePayload<T>(lib: Library<T>, data: string): Option<T> {
    match Base64.Decode(data)
    case None => None
    case Some(payload) =>
      match Utf8.Decode(payload)
      case None => None
      case Some(text) =>
        match lib.loadEnvelope(text)
        case None => None
        case Some(envelope) =>
          if envelope.version != Some(1) then None else OpenEnvelope(lib, envelope)
  }

  function OpenEnvelope<T>(lib: Library<T>, envelope: Envelope): Option<T> {
    match (Base64.Decode(envelope.key), Base64.Decode(envelope.connInfo))
    case (Some(encryptedKey), Some(encryptedInfo)) =>
      (match lib.aesDecrypt(lib.rsaDecrypt(encryptedKey), encryptedInfo)
       case None => None
       case Some(padded) =>
         match Padding.Unpad(padded)
         case None => None
         case Some(plain) =>
           match Utf8.Decode(plain)
           case None => None
           case Some(text) => lib.loadInfo(text))
    case _ => None
  }

  /** The server's decoding undoes the launcher's encoding, whatever AES key was drawn. */
  lemma DecodeUndoesEncrypt<T(!new)>(lib: Library<T>, aesKey: seq<Byte>, info: T)
    requires MutuallyInverse(lib) && |aesKey| == 16
    ensures DecodePayload(lib, Encrypt(lib, aesKey, info)) == Some(info)
  {
    var plain := Utf8.Encode(lib.dumpInfo(info));
    var padded := Padding.Pad(plain);
    var encrypted := lib.aesEncrypt(aesKey, padded);
    var envelope := Envelope(
      Some(LAUNCHER_VERSION), Base64.Encode(lib.rsaEncrypt(aesKey)), Base64.Encode(encrypted));
    Utf8.DecodeEncode(lib.dumpInfo(info));
    Padding.UnpadInvertsPad(padded, plain);
    Base64.DecodeEncode(encrypted);
    Base64.DecodeEncode(lib.rsaEncrypt(aesKey));
    assert OpenEnvelope(lib, envelope) == Some(info);
    Utf8.DecodeEncode(lib.dumpEnvelope(envelope));
    Base64.DecodeEncode(Utf8.Encode(lib.dumpEnvelope(envelope)));
  }

  /** Layer by layer, what is on the wire: version 1, the encrypted AES key, and the encrypted padded info. */
  lemma WireFormat<T(!new)>(lib: Library<T>, aesKey: seq<Byte>, info: T)
    returns (text: string, envelope: Envelope, encrypted: seq<Byte>)
    requires MutuallyInverse(lib) && |aesKey| == 16
    ensures Base64.Decode(Encrypt(lib, aesKey, info)) == Some(Utf8.Encode(text))
    ensures lib.loadEnvelope(text) == Some(envelope) && envelope.version == Some(1)
    ensures Base64.Decode(envelope.key) == Some(lib.rsaEncrypt(aesKey))
    ensures Base64.Decode(envelope.connInfo) == Some(encrypted)
    ensures lib.aesDecrypt(aesKey, encrypted) == Some(Padding.Pad(Utf8.Encode(lib.dumpInfo(info))))
  {
    encrypted := lib.aesEncrypt(aesKey, Padding.Pad(Utf8.Encode(lib.dumpInfo(info))));
    envelope := Envelope(Some(1), Base64.Encode(lib.rsaEncrypt(aesKey)), Base64.Encode(encrypted));
    text := lib.dumpEnvelope(envelope);
    Base64.DecodeEncode(encrypted);
    Base64.DecodeEncode(lib.rsaEncrypt(aesKey));
    Base64.DecodeEncode(Utf8.Encode(text));
  }

  /** An envelope of another version, or of none, is rejected whatever else is in it. */
  lemma OtherVersionsAreRejected<T(!new)>(lib: Library<T>, envelope: Envelope)
    requires MutuallyInverse(lib) && envelope.version != Some(1)
    ensures DecodePayload(lib, Base64.Encode(Utf8.Encode(lib.dumpEnvelope(envelope)))) == None
  {
    Utf8.DecodeEncode(lib.dumpEnvelope(envelope));
    Base64.DecodeEncode(Utf8.Encode(lib.dumpEnvelope(envelope)));
  }

  // ----- Reception in chunks -----

  function Flatten(chunks: seq<seq<Byte>>): seq<Byte> {
    if chunks == [] then [] else chunks[0] + Flatten(chunks[1..])
  }

  /** The text accumulated when each chunk is decoded on its own; `None` once one chunk fails. */
  function Accumulate(chunks: seq<seq<Byte>>): Option<string> {
    if chunks == [] then Some("")
    else
      match (Utf8.Decode(chunks[0]), Accumulate(chunks[1..]))
      case (Some(head), Some(tail)) => Some(head + tail)
      case _ => None
  }

  lemma {:induction false} AccumulateAppend(chunks: seq<seq<Byte>>, last: seq<Byte>)
    ensures Accumulate(chunks + [last]) ==
            match (Accumulate(chunks), Utf8.Decode(last))
            case (Some(a), Some(b)) => Some(a + b)
            case _ => None
  {
    if chunks == [] {
      assert chunks + [last] == [last];
      assert [last][1..] == [];
      if Utf8.Decode(last).Some? {
        assert Utf8.Decode(last).value + "" == "" + Utf8.Decode(last).value;
      }
    } else {
      AccumulateAppend(chunks[1..], last);
      assert (chunks + [last])[1..] == chunks[1..] + [last];
      if Utf8.Decode(chunks[0]).Some? && Accumulate(chunks[1..]).Some? && Utf8.Decode(last).Some? {
        var a, b, c := Utf8.Decode(chunks[0]).value, Accumulate(chunks[1..]).value, Utf8.Decode(last).value;
        assert a + (b + c) == (a + b) + c;
      }
    }
  }

  lemma {:induction false} AccumulateAscii(chunks: seq<seq<Byte>>)
    requires Utf8.Ascii(Flatten(chunks))
    ensures Accumulate(chunks) == Utf8.Decode(Flatten(chunks))
  {
    if chunks == [] {
    } else {
      var head, tail := chunks[0], Flatten(chunks[1..]);
      assert forall i :: 0 <= i < |head| ==> (head + tail)[i] == head[i];
      assert forall i :: 0 <= i < |tail| ==> (head + tail)[|head| + i] == tail[i];
      AccumulateAscii(chunks[1..]);
      Utf8.DecodeAscii(head);
      Utf8.DecodeAscii(tail);
      Utf8.DecodeAscii(head + tail);
      assert Utf8.AsciiText(head + tail) == Utf8.AsciiText(head) + Utf8.AsciiText(tail);
    }
  }

  ghost predicate ChunkingIrrelevant(data: seq<Byte>) {
    forall chunks :: Flatten(chunks) == data ==> Accumulate(chunks) == Utf8.Decode(data)
  }

  function Singletons(data: seq<Byte>): seq<seq<Byte>> {
    if data == [] then [] else [[data[0]]] + Singletons(data[1..])
  }

  lemma {:induction false} SingletonsFlatten(data: seq<Byte>)
    ensures Flatten(Singletons(data)) == data
    ensures !Utf8.Ascii(data) ==> Accumulate(Singletons(data)) == None
  {
    if data == [] {
    } else {
      SingletonsFlatten(data[1..]);
      assert Singletons(data)[1..] == Singletons(data[1..]);
      assert data == [data[0]] + data[1..];
    }
  }

  /**
   * Decoding each received buffer by itself is only right for ASCII data: for text that decodes as a
   * whole, every splitting gives that text exactly when no byte has its high bit set.
   */
  lemma ChunkingIrrelevantIffAscii(data: seq<Byte>)
    requires Utf8.Decode(data).Some?
    ensures ChunkingIrrelevant(data) <==> Utf8.Ascii(data)
  {
    if Utf8.Ascii(data) {
      forall chunks | Flatten(chunks) == data
        ensures Accumulate(chunks) == Utf8.Decode(data)
      {
        AccumulateAscii(chunks);
      }
    } else {
      SingletonsFlatten(data);
    }
  }

  /** The receive loop of the connection processor: an empty buffer ends the stream. */
  method ReceiveAll(chunks: seq<seq<Byte>>) returns (data: Option<string>)
    requires forall i :: 0 <= i < |chunks| ==> chunks[i] != []
    ensures data == Accumulate(chunks)
  {
    var text := "";
    var i := 0;
    while i < |chunks|
      invariant 0 <= i <= |chunks|
      invariant Accumulate(chunks[..i]) == Some(text)
    {
      AccumulateAppend(chunks[..i], chunks[i]);
      assert chunks[..i + 1] == chunks[..i] + [chunks[i]];
      match Utf8.Decode(chunks[i])
      case None =>
        AccumulateFails(chunks, i + 1);
        return None;
      case Some(buffer) => text := text + buffer;
      i := i + 1;
    }
    assert chunks[..i] == chunks;
    data := Some(text);
  }

  lemma {:induction false} AccumulateFails(chunks: seq<seq<Byte>>, n: nat)
    requires n <= |chunks| && Accumulate(chunks[..n]) == None
    ensures Accumulate(chunks) == None
  {
    if n == 0 {
    } else if Utf8.Decode(chunks[0]).None? {
    } else {
      assert chunks[..n][1..] == chunks[1..][..n - 1];
      AccumulateFails(chunks[1..], n - 1);
    }
  }

  lemma {:induction false} WireOfAscii(s: string)
    requires Base64.AsciiOnly(s)
    ensures Utf8.Ascii(Utf8.Encode(s))
  {
    if s == "" {
    } else {
      WireOfAscii(s[1..]);
    }
  }

  /** End to end: however the network splits the launcher's bytes, the server recovers the connection info. */
  lemma AnySplittingDecodes<T(!new)>(lib: Library<T>, aesKey: seq<Byte>, info: T, chunks: seq<seq<Byte>>)
    requires MutuallyInverse(lib) && |aesKey| == 16
    requires Flatten(chunks) == Utf8.Encode(Encrypt(lib, aesKey, info))
    ensures Accumulate(chunks).Some? && DecodePayload(lib, Accumulate(chunks).value) == Some(info)
  {
    var wire := Encrypt(lib, aesKey, info);
    assert Base64.AsciiOnly(wire) by {
      var encrypted := lib.aesEncrypt(aesKey, Padding.Pad(Utf8.Encode(lib.dumpInfo(info))));
      var envelope := Envelope(
        Some(LAUNCHER_VERSION), Base64.Encode(lib.rsaEncrypt(aesKey)), Base64.Encode(encrypted));
      Base64.EncodedIsAscii(Utf8.Encode(lib.dumpEnvelope(envelope)));
    }
    WireOfAscii(wire);
    AccumulateAscii(chunks);
    Utf8.DecodeEncode(wire);
    DecodeUndoesEncrypt(lib, aesKey, info);
  }
}
