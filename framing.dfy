/** Message framing of `Write` (section 3.2 of RFC 8323): a Len/TKL byte, extended length
    bytes, the code, the token, the options and, for a non-empty payload, the 0xFF marker and
    the payload. */
module Framing {

  import opened Wrappers
  import opened Bytes
  import opened Text
  import opened Packet
  import opened Options

  const PAYLOAD_MARKER: Byte := 0xFF

  /** Thresholds of the length tiers: a Len nibble of 13, 14 or 15 adds the extension
      bytes' value to 13, 269 or 65805. */
  const BASE_13: nat := 13
  const BASE_14: nat := 269
  const BASE_15: nat := 65805

  /** The number of extended length bytes that follow a Len nibble; tier 15 carries three
      bytes, as the writer emits them. */
  function ExtSize(nibble: int): (n: nat)
    ensures n <= 3
  {
    if nibble == 13 then 1 else if nibble == 14 then 2 else if nibble == 15 then 3 else 0
  }

  /** The length a Len nibble stands for before its extension bytes are added. */
  function ExtBase(nibble: nat): nat
  {
    if nibble == 13 then BASE_13 else if nibble == 14 then BASE_14 else if nibble == 15 then BASE_15 else nibble
  }

  /** `byte(nibble<<4) + byte(tkl)`: the first byte of a message. */
  function LenTkl(nibble: nat, tkl: nat): Byte
  {
    ((nibble * 16) % 256 + tkl % 256) % 256
  }

  /** A nibble and a token length below 16 are read back from the first byte. */
  lemma LenTklFields(nibble: nat, tkl: nat)
    requires nibble < 16 && tkl < 16
    ensures LenTkl(nibble, tkl) / 16 == nibble && LenTkl(nibble, tkl) % 16 == tkl
  {
    assert (nibble * 16) % 256 == nibble * 16;
    assert LenTkl(nibble, tkl) == nibble * 16 + tkl;
  }

  /** The Len/TKL byte and the extended length for a message length and token length, in
      Go's byte arithmetic: the shifted extension bytes are each taken modulo 256. */
  function SizeHeader(msgLen: nat, tkl: nat): (h: seq<Byte>)
    ensures 1 <= |h| <= 4
  {
    if msgLen < BASE_13 then [LenTkl(msgLen, tkl)]
    else if msgLen < BASE_14 then [LenTkl(13, tkl), msgLen - BASE_13]
    else if msgLen < BASE_15 then
      [LenTkl(14, tkl), ((msgLen - BASE_14) / 256) % 256, (msgLen - BASE_14) % 256]
    else
      [LenTkl(15, tkl), ((msgLen - BASE_15) / 0x1_0000) % 256,
       ((msgLen - BASE_15) / 256) % 256, (msgLen - BASE_15) % 256]
  }

  /** Two big-endian bytes of a number below 2^16 denote it. */
  lemma TwoBytes(e: nat)
    requires e < 0x1_0000
    ensures BeValue([(e / 256) % 256, e % 256]) == e
  {
    var x := [(e / 256) % 256, e % 256];
    assert x[..1][..0] == [];
    assert BeValue(x[..1]) == e / 256;
  }

  /** Three big-endian bytes of a number below 2^24 denote it. */
  lemma ThreeBytes(e: nat)
    requires e < 0x100_0000
    ensures BeValue([(e / 0x1_0000) % 256, (e / 256) % 256, e % 256]) == e
  {
    var x := [(e / 0x1_0000) % 256, (e / 256) % 256, e % 256];
    var q, a := e / 256, e % 256;
    var r, b := q / 256, q % 256;
    assert e == 0x1_0000 * r + (256 * b + a);
    assert e / 0x1_0000 == r && r < 256;
    assert x[..1][..0] == [];
    assert BeValue(x[..1]) == r;
    assert x[..2][..1] == x[..1];
    assert BeValue(x[..2]) == r * 256 + b == q;
    assert x[..3] == x;
  }

  /** With a token shorter than 16 bytes and a length the extension can hold, the header
      names its tier in the high nibble, the token length in the low one, and the extension
      bytes hold the length minus the tier's base. */
  lemma SizeHeaderFields(msgLen: nat, tkl: nat)
    requires tkl < 16 && msgLen < BASE_15 + 0x100_0000
    ensures var h := SizeHeader(msgLen, tkl);
      var nibble := h[0] / 16;
      h[0] % 16 == tkl && |h| == 1 + ExtSize(nibble)
      && msgLen == ExtBase(nibble) + BeValue(h[1..])
      && (nibble < 13 <==> msgLen < BASE_13)
  {
    var h := SizeHeader(msgLen, tkl);
    if msgLen < BASE_13 {
      LenTklFields(msgLen, tkl);
      assert h[1..] == [];
    } else if msgLen < BASE_14 {
      LenTklFields(13, tkl);
      assert h[1..][..0] == [];
    } else if msgLen < BASE_15 {
      LenTklFields(14, tkl);
      TwoBytes(msgLen - BASE_14);
      assert h[1..] == [((msgLen - BASE_14) / 256) % 256, (msgLen - BASE_14) % 256];
    } else {
      LenTklFields(15, tkl);
      ThreeBytes(msgLen - BASE_15);
      assert h[1..] == [((msgLen - BASE_15) / 0x1_0000) % 256, ((msgLen - BASE_15) / 256) % 256,
                        (msgLen - BASE_15) % 256];
    }
  }

  /** The length the header carries: options, payload and its marker. */
  function MessageLength(opts: seq<Byte>, payload: seq<Byte>): nat
  {
    |opts| + |payload| + (if |payload| > 0 then 1 else 0)
  }

  /** The 0xFF marker and the payload, or nothing for an empty payload. */
  function PayloadPart(payload: seq<Byte>): (r: seq<Byte>)
    ensures payload == [] ==> r == []
    ensures payload != [] ==> r != [] && r[0] == PAYLOAD_MARKER && r[1..] == payload
  {
    if |payload| > 0 then [PAYLOAD_MARKER] + payload else []
  }

  /** Everything after the header: code, token, option bytes and payload part. */
  function Body(p: Packet, opts: seq<Byte>): (b: seq<Byte>)
    ensures |b| == MessageLength(opts, p.payload) + |p.token| + 1
  {
    [p.code] + p.token + opts + PayloadPart(p.payload)
  }

  /** A message with the given option bytes: the header for its length, then the body. */
  function Message(p: Packet, opts: seq<Byte>): seq<Byte>
  {
    SizeHeader(MessageLength(opts, p.payload), |p.token|) + Body(p, opts)
  }

  /** A message ends with the payload, after the marker when the payload is not empty. */
  lemma MessageEndsWithPayload(p: Packet, opts: seq<Byte>)
    ensures var m := Message(p, opts);
      |m| > |p.payload| && m[|m| - |p.payload|..] == p.payload
      && (p.payload != [] ==> m[|m| - |p.payload| - 1] == PAYLOAD_MARKER)
  {
    var h, front := SizeHeader(MessageLength(opts, p.payload), |p.token|), [p.code] + p.token + opts;
    assert Message(p, opts) == (h + front) + PayloadPart(p.payload);
  }

  /** The bytes `Write` emits for a packet. */
  function Encode(p: Packet): seq<Byte>
    requires UriSplittable(p.uriPath)
  {
    Message(p, EncodeOptions(OptionList(p)))
  }

  /** More option bytes make a longer message: the header never shrinks as the length grows. */
  lemma MessageLonger(p: Packet, opts: seq<Byte>, opts': seq<Byte>)
    requires |opts| < |opts'|
    ensures |Message(p, opts)| < |Message(p, opts')|
  {
  }

  /** `Write` as written: None where `writeOptions` panics on a zero Max-Message-Size or
      Max-Age, otherwise the message around the as-written option bytes. */
  function EncodeAsWritten(p: Packet): (r: Option<seq<Byte>>)
    requires UriSplittable(p.uriPath)
    ensures r.None? <==> (p.csm.Some? && p.csm.value.maxMessageSize == 0) || p.maxAge == 0
  {
    match WriteOptionsAsWritten(p)
    case None => None
    case Some(opts) => Some(Message(p, opts))
  }

  /** Where `Write` as written does not panic, its bytes are Encode's exactly when the packet
      is not a lone Max-Age. */
  lemma EncodeAsWrittenAgrees(p: Packet)
    requires UriSplittable(p.uriPath) && EncodeAsWritten(p).Some?
    ensures EncodeAsWritten(p).value == Encode(p) <==> !LoneMaxAge(p)
  {
    var opts := WriteOptionsAsWritten(p).value;
    WriteOptionsAsWrittenAgrees(p);
    if LoneMaxAge(p) {
      MessageLonger(p, opts, EncodeOptions(OptionList(p)));
    }
  }

  /** The Len/TKL and extended length writes of `Write`, tier by tier. */
  method WriteSizeHeader(msgLen: nat, tkl: nat) returns (header: seq<Byte>)
    ensures header == SizeHeader(msgLen, tkl)
  {
    if msgLen < 13 {
      header := [LenTkl(msgLen, tkl)];
    } else if msgLen < 269 {
      header := [LenTkl(13, tkl), msgLen - 13];
    } else if msgLen < 65805 {
      header := [LenTkl(14, tkl), ((msgLen - 269) / 256) % 256, (msgLen - 269) % 256];
    } else {
      header := [LenTkl(15, tkl), ((msgLen - 65805) / 0x1_0000) % 256,
                 ((msgLen - 65805) / 256) % 256, (msgLen - 65805) % 256];
    }
  }

  /** The writes of `Write` once the option bytes are known: the header chosen by the length
      tier, the code, the token, the options and the payload part. */
  method WriteMessage(p: Packet, optBytes: seq<Byte>) returns (out: seq<Byte>)
    ensures out == Message(p, optBytes)
  {
    var msgLen := |optBytes| + |p.payload|;
    if |p.payload| > 0 {
      msgLen := msgLen + 1;
    }
    out := WriteSizeHeader(msgLen, |p.token|);
    ghost var header := out;
    out := out + [p.code];
    out := out + p.token;
    out := out + optBytes;
    if |p.payload| > 0 {
      out := out + [PAYLOAD_MARKER];
      out := out + p.payload;
    }
    assert out == header + [p.code] + p.token + optBytes + PayloadPart(p.payload);
    ConcatFive(header, [p.code], p.token, optBytes, PayloadPart(p.payload));
  }

  /** `Write`: the options are serialised first, then the message around them. */
  method Write(p: Packet) returns (out: seq<Byte>)
    requires UriSplittable(p.uriPath)
    ensures out == Encode(p)
  {
    var optBytes := WriteOptions(p);
    out := WriteMessage(p, optBytes);
  }

  lemma ConcatFive(a: seq<Byte>, b: seq<Byte>, c: seq<Byte>, d: seq<Byte>, e: seq<Byte>)
    ensures a + b + c + d + e == a + (b + c + d + e)
  {
  }

  /** An empty 2.05 response is the two bytes 0x00 0x45. */
  lemma EncodeSimplest()
    ensures Encode(NewCoapPacket(CODE_205_CONTENT, [], [])) == [0x00, 0x45]
  {
    var p := NewCoapPacket(CODE_205_CONTENT, [], []);
    assert OptionList(p) == [];
  }

  /** A 2.05 response with token 1 2 and payload 0x10 0x11 0x12. */
  lemma EncodeTokenAndPayload()
    ensures Encode(NewCoapPacket(CODE_205_CONTENT, [1, 2], [0x10, 0x11, 0x12]))
            == [0x42, 0x45, 0x01, 0x02, 0xff, 0x10, 0x11, 0x12]
  {
    var p := NewCoapPacket(CODE_205_CONTENT, [1, 2], [0x10, 0x11, 0x12]);
    assert OptionList(p) == [];
  }
}
