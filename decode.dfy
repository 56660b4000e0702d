/** Parsing of one message from a byte stream, as `ReadCoap` does it: the Len/TKL byte and
    its extension, then exactly the announced number of bytes, which hold the code, the token,
    the options and the payload. */
module Decoding {

  import opened Wrappers
  import opened Bytes
  import opened Text
  import opened Packet
  import opened Options
  import opened Framing

  /** `io.EOF` before any byte, `io.ErrUnexpectedEOF` in the middle of a read, and a slice
      index panic or the "not supported" panic of `readUint32`, as an error value. */
  datatype DecodeError = EndOfStream | UnexpectedEndOfStream | OutOfRange | UintTooLong

  /** A parsed packet and the number of bytes taken from the stream. */
  datatype Decoded = Decoded(packet: Packet, consumed: nat)

  /** `io.ReadFull` of n bytes at offset `at` of the stream. */
  function ReadFull(src: seq<Byte>, at: nat, n: nat): (r: Result<seq<Byte>, DecodeError>)
    requires at <= |src|
    ensures r.Success? <==> at + n <= |src|
    ensures r.Success? ==> r.value == src[at..at + n]
  {
    if at + n <= |src| then Success(src[at..at + n])
    else if at == |src| then Failure(EndOfStream)
    else Failure(UnexpectedEndOfStream)
  }

  /** The packet `ReadCoap` fills in: no options, Max-Age 60, no Content-Format. */
  function EmptyPacket(code: Byte, token: seq<Byte>): (p: Packet)
    ensures p.code == code && p.token == token && !HasOptions(p)
  {
    Packet(code, token, [], [], DEFAULT_MAX_AGE, NO_CONTENT_FORMAT, None)
  }

  /** The `switch optNum` of `ReadCoap`: the effect of one option on the packet. */
  function ApplyOption(p: Packet, num: Byte, value: seq<Byte>): (r: Result<Packet, DecodeError>)
    ensures r.Success? ==>
      r.value.code == p.code && r.value.token == p.token && r.value.payload == p.payload
    ensures r.Failure? ==> num in {OPT_MAX_MESSAGE_SIZE, OPT_CONTENT_FORMAT, OPT_MAX_AGE}
    ensures num !in {OPT_MAX_MESSAGE_SIZE, OPT_BLOCK_WISE_TRANSFER, OPT_URI_PATH, OPT_CONTENT_FORMAT, OPT_MAX_AGE}
            ==> r == Success(p)
  {
    if num == OPT_MAX_MESSAGE_SIZE then
      if p.code != CODE_701_CSM then Success(p)
      else match ReadUint32(value)
        case None => Failure(UintTooLong)
        case Some(v) => Success(p.(csm := Some(Capabilities(v, false))))
    else if num == OPT_BLOCK_WISE_TRANSFER then
      if p.code != CODE_701_CSM then Success(p)
      else if p.csm.Some? then Success(p.(csm := Some(p.csm.value.(blockWiseTransfer := true))))
      else Success(p.(csm := Some(Capabilities(1152, true))))
    else if num == OPT_URI_PATH then
      Success(p.(uriPath := p.uriPath + [SLASH] + value))
    else if num == OPT_CONTENT_FORMAT then
      if value == [] then Failure(OutOfRange) else Success(p.(contentFormat := value[0]))
    else if num == OPT_MAX_AGE then
      match ReadUint32(value)
      case None => Failure(UintTooLong)
      case Some(v) => Success(p.(maxAge := v))
    else
      Success(p)
  }

  /** The state after one option: the packet, the running option number and the index of the
      byte after the option. */
  datatype Step = Step(packet: Packet, optNum: Byte, next: nat)

  /** An extended delta or length: 13 plus the extension byte, in byte arithmetic. */
  function Extended(e: Byte): (r: Byte)
    ensures (r - 13) % 256 == e
    ensures e < 256 - 13 ==> r == 13 + e
  {
    (13 + e) % 256
  }

  /** One iteration of the option loop of `ReadCoap` at index i of the buffer: the delta and
      length nibbles, their extension bytes, the running number and the value slice. */
  function OptionStep(buf: seq<Byte>, i: nat, optNum: Byte, p: Packet): (r: Result<Step, DecodeError>)
    requires i < |buf|
    ensures r.Success? ==> i < r.value.next <= |buf|
    ensures r.Success? ==> r.value.packet.code == p.code && r.value.packet.token == p.token
  {
    var deltaNibble, lenNibble := buf[i] / 16, buf[i] % 16;
    if deltaNibble == 13 && i + 1 >= |buf| then Failure(OutOfRange)
    else
      var j := if deltaNibble == 13 then i + 1 else i;
      var delta: Byte := if deltaNibble == 13 then Extended(buf[j]) else deltaNibble;
      if lenNibble == 13 && j + 1 >= |buf| then Failure(OutOfRange)
      else
        var k := if lenNibble == 13 then j + 1 else j;
        var len: Byte := if lenNibble == 13 then Extended(buf[k]) else lenNibble;
        var num := (optNum + delta) % 256;
        if k + 1 + len > |buf| then Failure(OutOfRange)
        else
          match ApplyOption(p, num, buf[k + 1..k + 1 + len])
          case Failure(e) => Failure(e)
          case Success(q) => Success(Step(q, num, k + 1 + len))
  }

  /** Where the option loop stopped and the packet it built. */
  datatype Parsed = Parsed(packet: Packet, index: nat)

  /** The option loop of `ReadCoap`: it runs while bytes remain and the next one is not the
      payload marker. */
  function ParseOptions(buf: seq<Byte>, i: nat, optNum: Byte, p: Packet): (r: Result<Parsed, DecodeError>)
    requires i <= |buf|
    ensures r.Success? ==> i <= r.value.index <= |buf|
    ensures r.Success? ==> r.value.packet.code == p.code && r.value.packet.token == p.token
    decreases |buf| - i
  {
    if i < |buf| && buf[i] != PAYLOAD_MARKER then
      match OptionStep(buf, i, optNum, p)
      case Failure(e) => Failure(e)
      case Success(s) => ParseOptions(buf, s.next, s.optNum, s.packet)
    else
      Success(Parsed(p, i))
  }

  /** The loop stops only at the end of the buffer or at the payload marker. */
  lemma {:induction false} ParseOptionsStops(buf: seq<Byte>, i: nat, optNum: Byte, p: Packet)
    requires i <= |buf| && ParseOptions(buf, i, optNum, p).Success?
    ensures var n := ParseOptions(buf, i, optNum, p).value.index;
      n == |buf| || buf[n] == PAYLOAD_MARKER
    decreases |buf| - i
  {
    if i < |buf| && buf[i] != PAYLOAD_MARKER {
      var s := OptionStep(buf, i, optNum, p).value;
      ParseOptionsStops(buf, s.next, s.optNum, s.packet);
    }
  }

  /** The payload after the option loop: everything after a remaining marker, else empty. */
  function PayloadAfter(buf: seq<Byte>, i: nat): (payload: seq<Byte>)
    requires i <= |buf|
    ensures i < |buf| && buf[i] == PAYLOAD_MARKER ==> payload == buf[i + 1..]
    ensures !(i < |buf| && buf[i] == PAYLOAD_MARKER) ==> payload == []
  {
    if i < |buf| && buf[i] == PAYLOAD_MARKER then buf[i + 1..] else []
  }

  /** The payload part written after any bytes reads back as the payload. */
  lemma PayloadReadsBack(head: seq<Byte>, payload: seq<Byte>)
    ensures PayloadAfter(head + PayloadPart(payload), |head|) == payload
  {
    if payload != [] {
      assert (head + PayloadPart(payload))[|head| + 1..] == payload;
    }
  }

  /** The message after the header, already read into a buffer: the code, a token of tkl
      bytes, the options and the payload. */
  function ParseBody(buf: seq<Byte>, tkl: nat): (r: Result<Packet, DecodeError>)
    ensures r.Success? ==> |buf| >= tkl + 1 && r.value.code == buf[0] && r.value.token == buf[1..tkl + 1]
    ensures |buf| < tkl + 1 ==> r == Failure(OutOfRange)
  {
    if |buf| < tkl + 1 then Failure(OutOfRange)
    else
      match ParseOptions(buf, tkl + 1, 0, EmptyPacket(buf[0], buf[1..tkl + 1]))
      case Failure(e) => Failure(e)
      case Success(parsed) => Success(parsed.packet.(payload := PayloadAfter(buf, parsed.index)))
  }

  /** One message as read from the stream: its token length, the buffer after the header and
      the number of stream bytes taken. */
  datatype Frame = Frame(tkl: nat, buf: seq<Byte>, consumed: nat)

  /** The header reads of the decoder, symmetric with `Write`: a Len nibble of 13, 14 or 15
      is followed by one, two or three big-endian bytes added to 13, 269 or 65805, and then
      the length, the token and the code byte are read into the buffer. */
  function ReadFrame(src: seq<Byte>): (r: Result<Frame, DecodeError>)
    ensures r.Success? ==> 0 < r.value.consumed <= |src| && r.value.tkl < 16
    ensures r.Success? ==> |r.value.buf| <= r.value.consumed
    ensures r.Success? ==> r.value.buf == src[r.value.consumed - |r.value.buf|..r.value.consumed]
    ensures src == [] ==> r == Failure(EndOfStream)
  {
    if src == [] then Failure(EndOfStream)
    else
      var nibble, tkl := src[0] / 16, src[0] % 16;
      var ext := ExtSize(nibble);
      match ReadFull(src, 1, ext)
      case Failure(e) => Failure(e)
      case Success(extBytes) =>
        var total := ExtBase(nibble) + BeValue(extBytes) + tkl + 1;
        match ReadFull(src, 1 + ext, total)
        case Failure(e) => Failure(e)
        case Success(buf) => Success(Frame(tkl, buf, 1 + ext + total))
  }

  /** The header reads of `ReadCoap` as written: only the Len nibble 13 has an extension
      byte, and the length and the total are `uint8`, so `13 + ext` and `len + tkl + 1` wrap
      modulo 256. */
  function ReadFrameAsWritten(src: seq<Byte>): (r: Result<Frame, DecodeError>)
    ensures r.Success? ==> 0 < r.value.consumed <= |src| && |r.value.buf| < 256
  {
    if src == [] then Failure(EndOfStream)
    else
      var nibble, tkl := src[0] / 16, src[0] % 16;
      var hdr := if nibble == 13 then 2 else 1;
      if hdr == 2 && |src| < 2 then Failure(EndOfStream)
      else
        var len: Byte := if nibble == 13 then Extended(src[1]) else nibble;
        var total := (len + tkl + 1) % 256;
        match ReadFull(src, hdr, total)
        case Failure(e) => Failure(e)
        case Success(buf) => Success(Frame(tkl, buf, hdr + total))
  }

  /** The packet in a frame. */
  function DecodeFrame(f: Result<Frame, DecodeError>): (r: Result<Decoded, DecodeError>)
    ensures r.Success? ==> f.Success? && r.value.consumed == f.value.consumed
  {
    match f
    case Failure(e) => Failure(e)
    case Success(frame) =>
      match ParseBody(frame.buf, frame.tkl)
      case Failure(e) => Failure(e)
      case Success(p) => Success(Decoded(p, frame.consumed))
  }

  /** The decoder symmetric with `Write`. */
  function Decode(src: seq<Byte>): (r: Result<Decoded, DecodeError>)
    ensures r.Success? ==> 0 < r.value.consumed <= |src|
  {
    DecodeFrame(ReadFrame(src))
  }

  /** `ReadCoap` as written. The option loop is the one above: the buffer then holds at most
      255 bytes, and every `uint8` cursor step that would wrap comes with a slice or index
      panic, which the bounds checks of OptionStep report as OutOfRange. */
  function DecodeAsWritten(src: seq<Byte>): (r: Result<Decoded, DecodeError>)
    ensures r.Success? ==> 0 < r.value.consumed <= |src|
  {
    DecodeFrame(ReadFrameAsWritten(src))
  }

  /** Where no length wraps, that is for a Len nibble of at most 13 and a total of at most
      255 bytes, the source's header reads and the symmetric ones agree, and so do the
      decoders. */
  lemma AsWrittenAgrees(src: seq<Byte>)
    requires src != [] && src[0] / 16 <= 13
    requires src[0] / 16 == 13 && |src| >= 2 ==> 13 + src[1] as int + src[0] as int % 16 + 1 <= 255
    ensures ReadFrameAsWritten(src) == ReadFrame(src)
    ensures DecodeAsWritten(src) == Decode(src)
  {
    var nibble := src[0] / 16;
    if nibble == 13 && |src| >= 2 {
      assert src[1..2][..0] == [];
      assert BeValue(src[1..2]) == src[1];
    }
  }

  /** The decoder reads exactly the bytes of one message: bytes after it change nothing, and
      it needs no more than it consumes. */
  lemma FrameIgnoresTrailing(src: seq<Byte>, rest: seq<Byte>)
    requires ReadFrame(src).Success?
    ensures ReadFrame(src + rest) == ReadFrame(src)
    ensures ReadFrame(src[..ReadFrame(src).value.consumed]) == ReadFrame(src)
  {
    var nibble, tkl := src[0] / 16, src[0] % 16;
    var ext := ExtSize(nibble);
    var n := ReadFrame(src).value.consumed;
    assert (src + rest)[1..1 + ext] == src[1..1 + ext];
    assert src[..n][1..1 + ext] == src[1..1 + ext];
    var total := ExtBase(nibble) + BeValue(src[1..1 + ext]) + tkl + 1;
    assert (src + rest)[1 + ext..1 + ext + total] == src[1 + ext..1 + ext + total];
    assert src[..n][1 + ext..1 + ext + total] == src[1 + ext..1 + ext + total];
  }

  /** A decoded message stays decoded whatever follows it, and its first consumed bytes alone
      decode to it. */
  lemma DecodeIgnoresTrailing(src: seq<Byte>, rest: seq<Byte>)
    requires Decode(src).Success?
    ensures Decode(src + rest) == Decode(src)
    ensures Decode(src[..Decode(src).value.consumed]) == Decode(src)
  {
    FrameIgnoresTrailing(src, rest);
  }

  /** The option loop of `ReadCoap` over a buffer, updating the packet in place. */
  method ReadOptions(buf: seq<Byte>, tkl: nat) returns (r: Result<Packet, DecodeError>)
    ensures r == ParseBody(buf, tkl)
  {
    if |buf| < tkl + 1 {
      return Failure(OutOfRange);
    }
    var packet := EmptyPacket(buf[0], buf[1..tkl + 1]);
    var index := tkl + 1;
    var optNum: Byte := 0;
    while index < |buf| && buf[index] != PAYLOAD_MARKER
      invariant tkl + 1 <= index <= |buf|
      invariant ParseOptions(buf, index, optNum, packet)
                == ParseOptions(buf, tkl + 1, 0, EmptyPacket(buf[0], buf[1..tkl + 1]))
      decreases |buf| - index
    {
      var step := ReadOption(buf, index, optNum, packet);
      if step.Failure? {
        return Failure(step.error);
      }
      packet, optNum, index := step.value.packet, step.value.optNum, step.value.next;
    }
    packet := packet.(payload := PayloadAfter(buf, index));
    return Success(packet);
  }

  /** One iteration of the option loop: the cursor moves over the extension bytes, the
      running number takes the delta, and the switch sets the packet field. */
  method ReadOption(buf: seq<Byte>, index0: nat, optNum0: Byte, packet0: Packet) returns (r: Result<Step, DecodeError>)
    requires index0 < |buf|
    ensures r == OptionStep(buf, index0, optNum0, packet0)
  {
    var index := index0;
    var optDelta: Byte, optLen: Byte := buf[index] / 16, buf[index] % 16;
    if optDelta == 13 {
      index := index + 1;
      if index >= |buf| {
        return Failure(OutOfRange);
      }
      optDelta := Extended(buf[index]);
    }
    if optLen == 13 {
      index := index + 1;
      if index >= |buf| {
        return Failure(OutOfRange);
      }
      optLen := Extended(buf[index]);
    }
    var optNum := (optNum0 + optDelta) % 256;
    if index + 1 + optLen > |buf| {
      return Failure(OutOfRange);
    }
    var optVal := buf[index + 1..index + 1 + optLen];
    index := index + 1 + optLen;
    var packet := SetOption(packet0, optNum, optVal);
    if packet.Failure? {
      return Failure(packet.error);
    }
    return Success(Step(packet.value, optNum, index));
  }

  /** The `switch optNum` of `ReadCoap`, each case assigning one field of the packet. */
  method SetOption(packet0: Packet, optNum: Byte, optVal: seq<Byte>) returns (r: Result<Packet, DecodeError>)
    ensures r == ApplyOption(packet0, optNum, optVal)
  {
    var packet := packet0;
    if optNum == OPT_MAX_MESSAGE_SIZE {
      if packet.code == CODE_701_CSM {
        var v := ReadUint32(optVal);
        if v.None? {
          return Failure(UintTooLong);
        }
        packet := packet.(csm := Some(Capabilities(v.value, false)));
      }
    } else if optNum == OPT_BLOCK_WISE_TRANSFER {
      if packet.code == CODE_701_CSM {
        if packet.csm.Some? {
          packet := packet.(csm := Some(packet.csm.value.(blockWiseTransfer := true)));
        } else {
          packet := packet.(csm := Some(Capabilities(1152, true)));
        }
      }
    } else if optNum == OPT_URI_PATH {
      packet := packet.(uriPath := packet.uriPath + [SLASH] + optVal);
    } else if optNum == OPT_CONTENT_FORMAT {
      if optVal == [] {
        return Failure(OutOfRange);
      }
      packet := packet.(contentFormat := optVal[0]);
    } else if optNum == OPT_MAX_AGE {
      var v := ReadUint32(optVal);
      if v.None? {
        return Failure(UintTooLong);
      }
      packet := packet.(maxAge := v.value);
    }
    return Success(packet);
  }

  /** `ReadCoap`: the header and its extension, the whole message into a buffer, then the
      option loop. */
  method ReadCoap(src: seq<Byte>) returns (r: Result<Decoded, DecodeError>)
    ensures r == Decode(src)
  {
    if |src| < 1 {
      return Failure(EndOfStream);
    }
    var nibble, tkl := src[0] / 16, src[0] % 16;
    var ext := ExtSize(nibble);
    if 1 + ext > |src| {
      return Failure(if |src| == 1 then EndOfStream else UnexpectedEndOfStream);
    }
    var len := ExtBase(nibble) + BeValue(src[1..1 + ext]);
    var total := len + tkl + 1;
    if 1 + ext + total > |src| {
      return Failure(if |src| == 1 + ext then EndOfStream else UnexpectedEndOfStream);
    }
    var buf := src[1 + ext..1 + ext + total];
    assert ReadFrame(src) == Success(Frame(tkl, buf, 1 + ext + total));
    var packet := ReadOptions(buf, tkl);
    if packet.Failure? {
      return Failure(packet.error);
    }
    return Success(Decoded(packet.value, 1 + ext + total));
  }

  /** `0x70 0x43 0xb4 "test" 0x01 "2"` is a 2.03 response for the path "/test/2". */
  lemma DecodeUriPath()
    ensures Decode([0x70, 0x43, 0xb4, 0x74, 0x65, 0x73, 0x74, 0x01, 0x32])
            == Success(Decoded(NewCoapPacket(CODE_203_VALID, [], []).(uriPath := [SLASH, 0x74, 0x65, 0x73, 0x74, SLASH, 0x32]), 9))
  {
    var src: seq<Byte> := [0x70, 0x43, 0xb4, 0x74, 0x65, 0x73, 0x74, 0x01, 0x32];
    var buf: seq<Byte> := [0x43, 0xb4, 0x74, 0x65, 0x73, 0x74, 0x01, 0x32];
    assert src[1..9] == buf;
    assert ReadFrame(src) == Success(Frame(0, buf, 9));
    UriPathBody(buf);
  }

  lemma UriPathBody(buf: seq<Byte>)
    requires buf == [0x43, 0xb4, 0x74, 0x65, 0x73, 0x74, 0x01, 0x32]
    ensures ParseBody(buf, 0) == Success(EmptyPacket(CODE_203_VALID, []).(uriPath := [SLASH, 0x74, 0x65, 0x73, 0x74, SLASH, 0x32]))
  {
    var p0 := EmptyPacket(CODE_203_VALID, []);
    var p1 := p0.(uriPath := [SLASH, 0x74, 0x65, 0x73, 0x74]);
    var p2 := p0.(uriPath := [SLASH, 0x74, 0x65, 0x73, 0x74, SLASH, 0x32]);
    assert buf[2..6] == [0x74, 0x65, 0x73, 0x74];
    assert p0.uriPath + [SLASH] + [0x74, 0x65, 0x73, 0x74] == p1.uriPath;
    assert OptionStep(buf, 1, 0, p0) == Success(Step(p1, OPT_URI_PATH, 6));
    assert buf[7..8] == [0x32];
    assert p1.uriPath + [SLASH] + [0x32] == p2.uriPath;
    assert OptionStep(buf, 6, OPT_URI_PATH, p1) == Success(Step(p2, OPT_URI_PATH, 8));
    assert ParseOptions(buf, 8, OPT_URI_PATH, p2) == Success(Parsed(p2, 8));
    assert ParseOptions(buf, 6, OPT_URI_PATH, p1) == Success(Parsed(p2, 8));
    assert ParseOptions(buf, 1, 0, p0) == Success(Parsed(p2, 8));
    assert EmptyPacket(buf[0], buf[1..1]) == p0;
    assert PayloadAfter(buf, 8) == [];
  }

  /** `0x40 0x43 0xd2 0x01 0x01 0xF0`: an extended delta of 13 + 1 reaches Max-Age, 0x01F0. */
  lemma DecodeMaxAge()
    ensures Decode([0x40, 0x43, 0xd2, 0x01, 0x01, 0xF0])
            == Success(Decoded(NewCoapPacket(CODE_203_VALID, [], []).(maxAge := 0x01F0), 6))
  {
    var src: seq<Byte> := [0x40, 0x43, 0xd2, 0x01, 0x01, 0xF0];
    var buf: seq<Byte> := [0x43, 0xd2, 0x01, 0x01, 0xF0];
    assert src[1..6] == buf;
    assert ReadFrame(src) == Success(Frame(0, buf, 6));
    MaxAgeBody(buf);
  }

  lemma MaxAgeBody(buf: seq<Byte>)
    requires buf == [0x43, 0xd2, 0x01, 0x01, 0xF0]
    ensures ParseBody(buf, 0) == Success(EmptyPacket(CODE_203_VALID, []).(maxAge := 0x01F0))
  {
    var p0 := EmptyPacket(CODE_203_VALID, []);
    var v: seq<Byte> := [0x01, 0xF0];
    assert buf[3..5] == v;
    assert |v| == 2 && v[0] == 1 && v[1] == 0xF0;
    assert ReadUint32(v) == Some(0x01F0);
    assert OptionStep(buf, 1, 0, p0) == Success(Step(p0.(maxAge := 0x01F0), OPT_MAX_AGE, 5));
    assert ParseOptions(buf, 5, OPT_MAX_AGE, p0.(maxAge := 0x01F0)) == Success(Parsed(p0.(maxAge := 0x01F0), 5));
    assert ParseOptions(buf, 1, 0, p0) == Success(Parsed(p0.(maxAge := 0x01F0), 5));
    assert EmptyPacket(buf[0], buf[1..1]) == p0;
    assert PayloadAfter(buf, 5) == [];
  }

  /** `0x20 0x43 0xc1 42`: Content-Format application/octet-stream. */
  lemma DecodeContentFormat()
    ensures Decode([0x20, 0x43, 0xc1, 42])
            == Success(Decoded(NewCoapPacket(CODE_203_VALID, [], []).(contentFormat := MT_APPLICATION_OCTET_STREAM), 4))
  {
    var src: seq<Byte> := [0x20, 0x43, 0xc1, 42];
    var buf: seq<Byte> := [0x43, 0xc1, 42];
    assert src[1..4] == buf;
    assert ReadFrame(src) == Success(Frame(0, buf, 4));
    ContentFormatBody(buf);
  }

  lemma ContentFormatBody(buf: seq<Byte>)
    requires buf == [0x43, 0xc1, 42]
    ensures ParseBody(buf, 0) == Success(EmptyPacket(CODE_203_VALID, []).(contentFormat := 42))
  {
    var p0 := EmptyPacket(CODE_203_VALID, []);
    assert buf[2..3] == [42];
    assert OptionStep(buf, 1, 0, p0) == Success(Step(p0.(contentFormat := 42), OPT_CONTENT_FORMAT, 3));
    assert ParseOptions(buf, 3, OPT_CONTENT_FORMAT, p0.(contentFormat := 42)) == Success(Parsed(p0.(contentFormat := 42), 3));
    assert ParseOptions(buf, 1, 0, p0) == Success(Parsed(p0.(contentFormat := 42), 3));
    assert EmptyPacket(buf[0], buf[1..1]) == p0;
    assert PayloadAfter(buf, 3) == [];
  }

  /** Truncated input is an error: nothing at all, and a header announcing more bytes than
      follow. */
  lemma DecodeTruncated()
    ensures Decode([]) == Failure(EndOfStream)
    ensures Decode([0x30, 0x41]) == Failure(UnexpectedEndOfStream)
    ensures Decode([0xd0]) == Failure(EndOfStream)
  {
  }
}
