/** Reading back what `Write` emits: the header, each option and the payload, and then the
    whole message. */
module Codec {

  import opened Wrappers
  import opened Bytes
  import opened Text
  import opened Packet
  import opened Options
  import opened Framing
  import opened Decoding

  /** The header the encoder writes reads back as the frame of the message, whatever
      follows it in the stream. */
  lemma FrameOfMessage(p: Packet, opts: seq<Byte>, rest: seq<Byte>)
    requires |p.token| < 16 && MessageLength(opts, p.payload) < BASE_15 + 0x100_0000
    ensures ReadFrame(Message(p, opts) + rest)
            == Success(Frame(|p.token|, Body(p, opts), |Message(p, opts)|))
  {
    var len := MessageLength(opts, p.payload);
    var h := SizeHeader(len, |p.token|);
    var b := Body(p, opts);
    var src := Message(p, opts) + rest;
    SizeHeaderFields(len, |p.token|);
    assert src == h + (b + rest);
    var ext := ExtSize(h[0] / 16);
    assert src[0] == h[0];
    assert src[1..1 + ext] == h[1..];
    assert src[1 + ext..1 + ext + |b|] == b;
  }

  /** Option values short enough for the one-byte length `writeOptions` gives them. */
  predicate ValuesFit(opts: seq<RawOption>)
  {
    forall k :: 0 <= k < |opts| ==> |opts[k].value| < 256
  }

  /** The options applied in order, as the option loop of the decoder applies them. */
  function Replay(p: Packet, opts: seq<RawOption>): (r: Result<Packet, DecodeError>)
    ensures r.Success? ==> r.value.code == p.code && r.value.token == p.token && r.value.payload == p.payload
  {
    if opts == [] then Success(p)
    else
      match Replay(p, opts[..|opts| - 1])
      case Failure(e) => Failure(e)
      case Success(q) => ApplyOption(q, opts[|opts| - 1].number, opts[|opts| - 1].value)
  }

  /** The header bytes of an option read back as its delta and its length, and the cursor
      of the option loop ends on the last header byte. */
  lemma HeaderReads(buf: seq<Byte>, i: nat, d: Byte, s: Byte)
    requires i + |OptionHeader(d, s)| <= |buf|
    requires buf[i..i + |OptionHeader(d, s)|] == OptionHeader(d, s)
    ensures var dn, ln := buf[i] / 16, buf[i] % 16;
      var j := if dn == 13 then i + 1 else i;
      && (dn == 13 ==> i + 1 < |buf|)
      && (if dn == 13 then Extended(buf[j]) else dn) == d
      && (ln == 13 ==> j + 1 < |buf|)
      && var k := if ln == 13 then j + 1 else j;
         (if ln == 13 then Extended(buf[k]) else ln) == s && k + 1 == i + |OptionHeader(d, s)|
  {
    var h := OptionHeader(d, s);
    assert buf[i] == h[0];
    if d <= 12 && s <= 12 {
      assert buf[i] / 16 == d && buf[i] % 16 == s;
    } else if d <= 12 {
      assert buf[i] / 16 == d && buf[i] % 16 == 13;
      assert buf[i + 1] == h[1] == s - 13;
    } else if s <= 12 {
      assert buf[i] / 16 == 13 && buf[i] % 16 == s;
      assert buf[i + 1] == h[1] == d - 13;
    } else {
      assert buf[i] / 16 == 13 && buf[i] % 16 == 13;
      assert buf[i + 1] == h[1] == d - 13;
      assert buf[i + 2] == h[2] == s - 13;
    }
  }

  /** One encoded option, read by one iteration of the option loop: the header gives back the
      number and the value, and the cursor lands just after the option. */
  lemma OptionStepOnEncoded(buf: seq<Byte>, i: nat, last: Byte, o: RawOption, q: Packet)
    requires |o.value| < 256
    requires i + |EncodeOption(last, o)| <= |buf|
    requires buf[i..i + |EncodeOption(last, o)|] == EncodeOption(last, o)
    ensures var a := ApplyOption(q, o.number, o.value);
      OptionStep(buf, i, last, q)
      == if a.Success? then Success(Step(a.value, o.number, i + |EncodeOption(last, o)|)) else Failure(a.error)
  {
    var d := OptionDelta(last, o.number);
    var s: Byte := |o.value| % 256;
    var h := OptionHeader(d, s);
    var e := EncodeOption(last, o);
    assert e == h + o.value;
    SliceParts(buf, i, h, o.value);
    HeaderReads(buf, i, d, s);
  }

  /** An encoded option whose effect applies is one iteration of the loop that continues
      right after it. */
  lemma {:induction false} ParseOneOption(buf: seq<Byte>, j: nat, last: Byte, o: RawOption, q: Packet, next: nat)
    requires |o.value| < 256
    requires next == j + |EncodeOption(last, o)| <= |buf|
    requires buf[j..next] == EncodeOption(last, o)
    requires ApplyOption(q, o.number, o.value).Success?
    ensures ParseOptions(buf, j, last, q)
            == ParseOptions(buf, next, o.number, ApplyOption(q, o.number, o.value).value)
  {
    OptionStepOnEncoded(buf, j, last, o, q);
    assert OptionStep(buf, j, last, q) == Success(Step(ApplyOption(q, o.number, o.value).value, o.number, next));
    assert buf[j] == EncodeOption(last, o)[0];
  }

  /** The two parts of a slice that holds a concatenation. */
  lemma SliceParts(buf: seq<Byte>, i: nat, a: seq<Byte>, b: seq<Byte>)
    requires i + |a + b| <= |buf| && buf[i..i + |a + b|] == a + b
    ensures buf[i..i + |a|] == a && buf[i + |a|..i + |a| + |b|] == b
  {
    assert buf[i..i + |a|] == buf[i..i + |a + b|][..|a|];
    assert buf[i + |a|..i + |a| + |b|] == buf[i..i + |a + b|][|a|..];
  }

  lemma ValuesFitInit(opts: seq<RawOption>)
    requires ValuesFit(opts) && opts != []
    ensures ValuesFit(opts[..|opts| - 1]) && |opts[|opts| - 1].value| < 256
  {
  }

  /** An option encoded after some bytes a: the loop, started after a, steps over it. */
  lemma {:induction false} ParseAfter(buf: seq<Byte>, i: nat, a: seq<Byte>, last: Byte, o: RawOption, q: Packet, mid: nat, next: nat)
    requires |o.value| < 256
    requires mid == i + |a| && next == i + |a + EncodeOption(last, o)| <= |buf|
    requires buf[i..next] == a + EncodeOption(last, o)
    requires ApplyOption(q, o.number, o.value).Success?
    ensures buf[i..mid] == a
    ensures ParseOptions(buf, mid, last, q)
            == ParseOptions(buf, next, o.number, ApplyOption(q, o.number, o.value).value)
  {
    SliceParts(buf, i, a, EncodeOption(last, o));
    ParseOneOption(buf, mid, last, o, q, next);
  }

  /** The option loop over an encoded option list applies every option in turn and stops
      right after the last one, with that option's number as the running number. */
  lemma {:induction false} ParseThrough(buf: seq<Byte>, i: nat, opts: seq<RawOption>, p: Packet)
    requires ValuesFit(opts)
    requires i + |EncodeOptions(opts)| <= |buf|
    requires buf[i..i + |EncodeOptions(opts)|] == EncodeOptions(opts)
    requires Replay(p, opts).Success?
    ensures ParseOptions(buf, i, 0, p)
            == ParseOptions(buf, i + |EncodeOptions(opts)|, PrevNumber(opts), Replay(p, opts).value)
  {
    if opts != [] {
      ValuesFitInit(opts);
      ParseAfter(buf, i, EncodeOptions(opts[..|opts| - 1]), PrevNumber(opts[..|opts| - 1]), opts[|opts| - 1],
                 Replay(p, opts[..|opts| - 1]).value, i + |EncodeOptions(opts[..|opts| - 1])|, i + |EncodeOptions(opts)|);
      ParseThrough(buf, i, opts[..|opts| - 1], p);
    } else {
      assert EncodeOptions(opts) == [] && PrevNumber(opts) == 0 && Replay(p, opts) == Success(p);
    }
  }

  /** Replaying a concatenation replays its parts one after the other. */
  lemma {:induction false} ReplayAppend(p: Packet, a: seq<RawOption>, b: seq<RawOption>)
    ensures Replay(p, a + b)
            == if Replay(p, a).Success? then Replay(Replay(p, a).value, b) else Replay(p, a)
  {
    if b == [] {
      assert a + b == a;
    } else {
      var bi := b[..|b| - 1];
      assert (a + b)[..|a + b| - 1] == a + bi;
      assert (a + b)[|a + b| - 1] == b[|b| - 1];
      ReplayAppend(p, a, bi);
    }
  }

  /** The capability options read back as the record, for a CSM message; any other code
      ignores them. */
  lemma {:induction false} ReplayCsm(q: Packet, p: Packet)
    requires q.csm == None
    ensures Replay(q, CsmOptions(p)) == Success(q.(csm := if q.code == CODE_701_CSM then p.csm else None))
  {
    if p.csm.Some? {
      var m := p.csm.value.maxMessageSize;
      var o := RawOption(OPT_MAX_MESSAGE_SIZE, UintValue(m));
      assert ReadUint32(UintValue(m)) == Some(m);
      assert Replay(q, [o]) == ApplyOption(q, o.number, o.value);
      if p.csm.value.blockWiseTransfer {
        var b := RawOption(OPT_BLOCK_WISE_TRANSFER, []);
        assert CsmOptions(p) == [o, b];
        assert [o, b][..1] == [o];
      } else {
        assert CsmOptions(p) == [o];
      }
    } else {
      assert CsmOptions(p) == [];
    }
  }

  /** Each Uri-Path option adds a separator and its segment to the path. */
  lemma {:induction false} ReplayUri(q: Packet, segs: seq<seq<Byte>>)
    ensures Replay(q, UriOptions(segs)) == Success(q.(uriPath := q.uriPath + PrefixJoin(segs, SLASH)))
  {
    if segs != [] {
      var init := segs[..|segs| - 1];
      ReplayUri(q, init);
      var opts := UriOptions(segs);
      assert opts[..|opts| - 1] == UriOptions(init);
      assert q.uriPath + PrefixJoin(init, SLASH) + [SLASH] + segs[|segs| - 1]
             == q.uriPath + PrefixJoin(segs, SLASH);
    } else {
      assert q.uriPath + [] == q.uriPath;
    }
  }

  /** The Content-Format option reads back as the low byte of the format. */
  lemma {:induction false} ReplayContentFormat(q: Packet, p: Packet)
    ensures Replay(q, ContentFormatOptions(p))
            == Success(if p.contentFormat >= 0 then q.(contentFormat := p.contentFormat % 256) else q)
  {
    if p.contentFormat >= 0 {
      var o := RawOption(OPT_CONTENT_FORMAT, [p.contentFormat % 256]);
      assert ContentFormatOptions(p) == [o];
      assert Replay(q, [o]) == ApplyOption(q, o.number, o.value);
    }
  }

  /** The Max-Age option reads back as the age. */
  lemma {:induction false} ReplayMaxAge(q: Packet, p: Packet)
    ensures Replay(q, MaxAgeOptions(p))
            == Success(if p.maxAge != DEFAULT_MAX_AGE then q.(maxAge := p.maxAge) else q)
  {
    if p.maxAge != DEFAULT_MAX_AGE {
      var v := UintValue(p.maxAge);
      var o := RawOption(OPT_MAX_AGE, v);
      assert MaxAgeOptions(p) == [o];
      assert ReadUint32(v) == Some(p.maxAge);
      assert ApplyOption(q, OPT_MAX_AGE, v) == Success(q.(maxAge := p.maxAge));
      assert [o][..0] == [];
      assert Replay(q, [o]) == ApplyOption(q, OPT_MAX_AGE, v);
    } else {
      assert MaxAgeOptions(p) == [];
    }
  }

  /** What the decoder gives back for an encoded packet: the path rebuilt from the segments
      after the first piece of its split, the low byte of a Content-Format, and the
      capability record only on a CSM message; code, token, payload and Max-Age unchanged. */
  function Expected(p: Packet): (e: Packet)
    requires UriSplittable(p.uriPath)
    ensures e.code == p.code && e.token == p.token && e.payload == p.payload && e.maxAge == p.maxAge
  {
    p.(uriPath := PrefixJoin(UriSegments(p.uriPath), SLASH),
       contentFormat := if p.contentFormat >= 0 then p.contentFormat % 256 else NO_CONTENT_FORMAT,
       csm := if p.code == CODE_701_CSM then p.csm else None)
  }

  lemma ValuesFitAppend(a: seq<RawOption>, b: seq<RawOption>)
    requires ValuesFit(a) && ValuesFit(b)
    ensures ValuesFit(a + b)
  {
    forall k | 0 <= k < |a + b|
      ensures |(a + b)[k].value| < 256
    {
      if k >= |a| {
        assert (a + b)[k] == b[k - |a|];
      }
    }
  }

  /** Every Uri-Path segment fits the one-byte length of its option. */
  predicate SegmentsFit(path: seq<Byte>)
    requires UriSplittable(path)
  {
    forall k :: 0 <= k < |UriSegments(path)| ==> |UriSegments(path)[k]| < 256
  }

  lemma {:induction false} UriOptionsFit(segs: seq<seq<Byte>>)
    requires forall k :: 0 <= k < |segs| ==> |segs[k]| < 256
    ensures ValuesFit(UriOptions(segs))
  {
    forall k | 0 <= k < |segs|
      ensures |UriOptions(segs)[k].value| < 256
    {
      UriOptionsAt(segs, k);
    }
  }

  /** The capability, Content-Format and Max-Age options hold at most four bytes each. */
  lemma FixedOptionsFit(p: Packet)
    ensures ValuesFit(CsmOptions(p)) && ValuesFit(ContentFormatOptions(p)) && ValuesFit(MaxAgeOptions(p))
  {
    if p.csm.Some? {
      assert |UintValue(p.csm.value.maxMessageSize)| <= 4;
      if p.csm.value.blockWiseTransfer {
        assert CsmOptions(p) == [RawOption(OPT_MAX_MESSAGE_SIZE, UintValue(p.csm.value.maxMessageSize)),
                                 RawOption(OPT_BLOCK_WISE_TRANSFER, [])];
      } else {
        assert CsmOptions(p) == [RawOption(OPT_MAX_MESSAGE_SIZE, UintValue(p.csm.value.maxMessageSize))];
      }
    } else {
      assert CsmOptions(p) == [];
    }
    if p.maxAge != DEFAULT_MAX_AGE {
      assert |UintValue(p.maxAge)| <= 4;
      assert MaxAgeOptions(p) == [RawOption(OPT_MAX_AGE, UintValue(p.maxAge))];
    }
  }

  /** The options of a packet fit their one-byte lengths when its segments do. */
  lemma OptionListFits(p: Packet)
    requires UriSplittable(p.uriPath) && SegmentsFit(p.uriPath)
    ensures ValuesFit(OptionList(p))
  {
    UriOptionsFit(UriSegments(p.uriPath));
    FixedOptionsFit(p);
    ValuesFitAppend(CsmOptions(p), UriOptions(UriSegments(p.uriPath)));
    ValuesFitAppend(CsmOptions(p) + UriOptions(UriSegments(p.uriPath)), ContentFormatOptions(p));
    ValuesFitAppend(CsmOptions(p) + UriOptions(UriSegments(p.uriPath)) + ContentFormatOptions(p), MaxAgeOptions(p));
  }

  /** The packet of the option loop after the capability options, the Uri-Path options and
      the Content-Format option of an encoded packet. */
  function CsmStage(p: Packet): Packet
  {
    EmptyPacket(p.code, p.token).(csm := if p.code == CODE_701_CSM then p.csm else None)
  }

  function UriStage(p: Packet): Packet
    requires UriSplittable(p.uriPath)
  {
    CsmStage(p).(uriPath := PrefixJoin(UriSegments(p.uriPath), SLASH))
  }

  function ContentFormatStage(p: Packet): Packet
    requires UriSplittable(p.uriPath)
  {
    if p.contentFormat >= 0 then UriStage(p).(contentFormat := p.contentFormat % 256) else UriStage(p)
  }

  /** The option loop, started on the packet `ReadCoap` creates, turns the option list of a
      packet into the expected packet, short of its payload. */
  lemma ReplayOptionList(p: Packet)
    requires UriSplittable(p.uriPath)
    ensures Replay(EmptyPacket(p.code, p.token), OptionList(p)) == Success(Expected(p).(payload := []))
  {
    ReplayCsm(EmptyPacket(p.code, p.token), p);
    ReplayAppend(EmptyPacket(p.code, p.token), CsmOptions(p), UriOptions(UriSegments(p.uriPath)));
    ReplayUri(CsmStage(p), UriSegments(p.uriPath));
    assert [] + PrefixJoin(UriSegments(p.uriPath), SLASH) == PrefixJoin(UriSegments(p.uriPath), SLASH);
    ReplayAppend(EmptyPacket(p.code, p.token), CsmOptions(p) + UriOptions(UriSegments(p.uriPath)),
                 ContentFormatOptions(p));
    ReplayContentFormat(UriStage(p), p);
    ReplayAppend(EmptyPacket(p.code, p.token),
                 CsmOptions(p) + UriOptions(UriSegments(p.uriPath)) + ContentFormatOptions(p), MaxAgeOptions(p));
    ReplayMaxAge(ContentFormatStage(p), p);
  }

  /** Where the parts of a message body lie. */
  lemma BodySlices(p: Packet, e: seq<Byte>)
    ensures |p.token| + 1 + |e| <= |Body(p, e)|
    ensures Body(p, e)[0] == p.code
    ensures Body(p, e)[1..|p.token| + 1] == p.token
    ensures Body(p, e)[|p.token| + 1..|p.token| + 1 + |e|] == e
    ensures Body(p, e)[|p.token| + 1 + |e|..] == PayloadPart(p.payload)
  {
    assert Body(p, e) == [p.code] + p.token + e + PayloadPart(p.payload);
  }

  /** After the options, the loop stops: at the payload marker, or at the end when there is
      no payload. */
  lemma {:induction false} ParseStops(buf: seq<Byte>, n: nat, last: Byte, q: Packet, payload: seq<Byte>)
    requires n <= |buf| && buf[n..] == PayloadPart(payload)
    ensures ParseOptions(buf, n, last, q) == Success(Parsed(q, n))
    ensures PayloadAfter(buf, n) == payload
  {
    if payload != [] {
      assert buf[n] == buf[n..][0];
    }
  }

  /** From the start of encoded options that run up to a payload part, the option loop
      replays the options and stops where the payload part begins. */
  lemma {:induction false} OptionsToPayload(buf: seq<Byte>, i: nat, opts: seq<RawOption>, p: Packet, payload: seq<Byte>)
    requires ValuesFit(opts) && Replay(p, opts).Success?
    requires i + |EncodeOptions(opts)| <= |buf|
    requires buf[i..i + |EncodeOptions(opts)|] == EncodeOptions(opts)
    requires buf[i + |EncodeOptions(opts)|..] == PayloadPart(payload)
    ensures ParseOptions(buf, i, 0, p) == Success(Parsed(Replay(p, opts).value, i + |EncodeOptions(opts)|))
    ensures PayloadAfter(buf, i + |EncodeOptions(opts)|) == payload
  {
    ParseThrough(buf, i, opts, p);
    ParseStops(buf, i + |EncodeOptions(opts)|, PrevNumber(opts), Replay(p, opts).value, payload);
  }

  /** A buffer laid out as a code, a token, encoded options and a payload part parses to
      the packet the options replay to, with that payload. */
  lemma {:induction false} ParseEncodedLayout(buf: seq<Byte>, code: Byte, token: seq<Byte>, opts: seq<RawOption>, payload: seq<Byte>)
    requires ValuesFit(opts) && Replay(EmptyPacket(code, token), opts).Success?
    requires |token| + 1 + |EncodeOptions(opts)| <= |buf|
    requires buf[0] == code && buf[1..|token| + 1] == token
    requires buf[|token| + 1..|token| + 1 + |EncodeOptions(opts)|] == EncodeOptions(opts)
    requires buf[|token| + 1 + |EncodeOptions(opts)|..] == PayloadPart(payload)
    ensures ParseBody(buf, |token|) == Success(Replay(EmptyPacket(code, token), opts).value.(payload := payload))
  {
    assert EmptyPacket(buf[0], buf[1..|token| + 1]) == EmptyPacket(code, token);
    OptionsToPayload(buf, |token| + 1, opts, EmptyPacket(code, token), payload);
  }

  /** The buffer after the header of an encoded message parses back to the packet the
      options replay to, with the payload after the marker. */
  lemma {:induction false} BodyParses(p: Packet, opts: seq<RawOption>)
    requires ValuesFit(opts)
    requires Replay(EmptyPacket(p.code, p.token), opts).Success?
    ensures ParseBody(Body(p, EncodeOptions(opts)), |p.token|)
            == Success(Replay(EmptyPacket(p.code, p.token), opts).value.(payload := p.payload))
  {
    BodySlices(p, EncodeOptions(opts));
    ParseEncodedLayout(Body(p, EncodeOptions(opts)), p.code, p.token, opts, p.payload);
  }

  /** The packets the round trip covers: a path `Split` can take apart, a token whose length
      fits its nibble, segments whose lengths fit a byte, and a message length the header
      can announce. */
  predicate Encodable(p: Packet)
  {
    && UriSplittable(p.uriPath)
    && |p.token| < 16
    && SegmentsFit(p.uriPath)
    && MessageLength(EncodeOptions(OptionList(p)), p.payload) < BASE_15 + 0x100_0000
  }

  /** Each option takes at most three header bytes besides its value. */
  lemma {:induction false} EncodeOptionsLength(opts: seq<RawOption>)
    requires ValuesFit(opts)
    ensures |EncodeOptions(opts)| <= 258 * |opts|
  {
    if opts != [] {
      ValuesFitInit(opts);
      EncodeOptionsLength(opts[..|opts| - 1]);
    }
  }

  /** A packet without a path has at most the four options 2, 4, 12 and 14. */
  lemma OptionListWithoutPath(p: Packet)
    requires p.uriPath == []
    ensures |OptionList(p)| <= 4
  {
    assert UriSegments([]) == [];
  }

  /** A packet without a path, with a token of at most 15 bytes and a payload below 16 MiB
      can be encoded and decoded. */
  lemma EncodableWithoutPath(p: Packet)
    requires p.uriPath == [] && |p.token| < 16 && |p.payload| < 0x100_0000
    ensures Encodable(p)
  {
    assert UriSegments([]) == [];
    OptionListFits(p);
    OptionListWithoutPath(p);
    EncodeOptionsLength(OptionList(p));
  }

  /** Decoding the bytes `Write` emits, followed by anything, gives back the expected packet
      and consumes exactly the message. */
  lemma RoundTrip(p: Packet, rest: seq<Byte>)
    requires Encodable(p)
    ensures Decode(Encode(p) + rest) == Success(Decoded(Expected(p), |Encode(p)|))
  {
    FrameOfMessage(p, EncodeOptions(OptionList(p)), rest);
    OptionListFits(p);
    ReplayOptionList(p);
    BodyParses(p, OptionList(p));
  }

  /** The decoder gives a packet back unchanged exactly when its path is empty or starts
      with '/', its Content-Format is absent or fits one byte, and it carries a capability
      record only as a CSM message. */
  lemma ExpectedIsIdentity(p: Packet)
    requires UriSplittable(p.uriPath)
    ensures Expected(p) == p <==>
      && (p.uriPath == [] || p.uriPath[0] == SLASH)
      && -1 <= p.contentFormat <= 255
      && (p.code == CODE_701_CSM || p.csm == None)
  {
    PrefixJoinHead(UriSegments(p.uriPath), SLASH);
    if p.uriPath != [] && p.uriPath[0] == SLASH {
      PathRebuilt(p.uriPath, SLASH);
    }
  }

  /** A packet the decoder can represent survives the round trip unchanged. */
  lemma RoundTripExact(p: Packet)
    requires Encodable(p)
    requires p.uriPath == [] || p.uriPath[0] == SLASH
    requires -1 <= p.contentFormat <= 255
    requires p.code == CODE_701_CSM || p.csm == None
    ensures Decode(Encode(p)) == Success(Decoded(p, |Encode(p)|))
  {
    RoundTrip(p, []);
    assert Encode(p) + [] == Encode(p);
    ExpectedIsIdentity(p);
  }

  /** A message cut short at any point is an error, not a packet: a decoding of the prefix
      would also be the decoding of the whole message, which consumes every byte of it. */
  lemma TruncatedEncodingFails(p: Packet, k: nat)
    requires Encodable(p) && k < |Encode(p)|
    ensures Decode(Encode(p)[..k]).Failure?
  {
    RoundTrip(p, []);
    assert Encode(p) + [] == Encode(p);
    PrefixFails(Encode(p), k);
  }

  /** A prefix of a stream that decodes using all of it does not decode. */
  lemma PrefixFails(src: seq<Byte>, k: nat)
    requires Decode(src).Success? && Decode(src).value.consumed == |src| && k < |src|
    ensures Decode(src[..k]).Failure?
  {
    if Decode(src[..k]).Success? {
      assert src[..k] + src[k..] == src;
      DecodeIgnoresTrailing(src[..k], src[k..]);
    }
  }

  /** A packet built by `NewCoapPacket` is a header, the code, the token and the payload
      part, and it decodes back to itself. */
  lemma NewPacketRoundTrip(code: Byte, token: seq<Byte>, payload: seq<Byte>)
    requires |token| < 16 && |payload| + 1 < BASE_15 + 0x100_0000
    ensures Encode(NewCoapPacket(code, token, payload)) == Message(NewCoapPacket(code, token, payload), [])
    ensures Decode(Encode(NewCoapPacket(code, token, payload)))
            == Success(Decoded(NewCoapPacket(code, token, payload), |Encode(NewCoapPacket(code, token, payload))|))
  {
    assert OptionList(NewCoapPacket(code, token, payload)) == [];
    assert UriSegments([]) == [];
    RoundTripExact(NewCoapPacket(code, token, payload));
  }

  /** The 65800-byte payload of the codec tests, after a two-byte token: the message length
      65801 falls in Len tier 14, and any payload of that size round-trips. */
  lemma Tier14RoundTrip(payload: seq<Byte>)
    requires |payload| == 65800
    ensures var p := NewCoapPacket(CODE_415_UNSUPPORTED_CONTENT_FORMAT, [10, 20], payload);
      Decode(Encode(p)) == Success(Decoded(p, 3 + 65804))
  {
    var p := NewCoapPacket(CODE_415_UNSUPPORTED_CONTENT_FORMAT, [10, 20], payload);
    NewPacketRoundTrip(p.code, p.token, payload);
    assert |SizeHeader(MessageLength([], payload), 2)| == 3;
  }

  /** The 200000-byte payload of the codec tests, after a three-byte token: the message
      length 200001 falls in Len tier 15, and any payload of that size round-trips. */
  lemma Tier15RoundTrip(payload: seq<Byte>)
    requires |payload| == 200000
    ensures var p := NewCoapPacket(CODE_504_GATEWAY_TIMEOUT, [10, 20, 30], payload);
      Decode(Encode(p)) == Success(Decoded(p, 4 + 200005))
  {
    var p := NewCoapPacket(CODE_504_GATEWAY_TIMEOUT, [10, 20, 30], payload);
    NewPacketRoundTrip(p.code, p.token, payload);
    assert |SizeHeader(MessageLength([], payload), 3)| == 4;
  }

  /** A packet whose only option is Max-Age 100. */
  const MAX_AGE_ONLY: Packet := NewCoapPacket(CODE_205_CONTENT, [], []).(maxAge := 100)

  /** A packet whose only option is Max-Age 100 emits exactly that option. */
  lemma MaxAgeOnlyOptions(p: Packet)
    requires p.csm == None && p.uriPath == [] && p.contentFormat < 0 && p.maxAge == 100
    ensures OptionList(p) == [RawOption(OPT_MAX_AGE, [100])]
  {
    assert WriteUint32(100) == [0, 0, 0, 100];
    assert UintValue(100) == [100];
    assert UriSegments([]) == [];
  }

  /** As written, the header of an option whose delta exceeds 12 and whose length is below 12
      carries the nibble 13 but no delta byte: the Max-Age 100 option comes out as 0xD1 0x64,
      which the decoder reads as delta 13 + 0x64 with its one value byte missing. */
  lemma MaxAgeHeaderAsWritten()
    ensures OptionHeaderAsWritten(OptionDelta(0, OPT_MAX_AGE), 1) + [100] == [0xD1, 0x64]
    ensures Decode(Message(MAX_AGE_ONLY, [0xD1, 0x64])) == Failure(OutOfRange)
  {
    assert Message(MAX_AGE_ONLY, [0xD1, 0x64]) == [0x20, 0x45, 0xD1, 0x64] by {
      assert SizeHeader(2, 0) == [0x20];
    }
    TruncatedOptionFails([0x20, 0x45, 0xD1, 0x64]);
  }

  /** The stream 0x20 0x45 0xD1 0x64: a two-byte message whose option announces a delta
      extension and one value byte, of which only the extension is there. */
  lemma TruncatedOptionFails(src: seq<Byte>)
    requires src == [0x20, 0x45, 0xD1, 0x64]
    ensures Decode(src) == Failure(OutOfRange)
  {
    var buf := src[1..4];
    assert buf == [0x45, 0xD1, 0x64];
    assert ReadFrame(src) == Success(Frame(0, buf, 4));
    assert OptionStep(buf, 1, 0, EmptyPacket(CODE_205_CONTENT, [])) == Failure(OutOfRange);
  }

  /** The corrected header writes the delta byte: Max-Age 100 is 0xD1 0x01 0x64. */
  lemma MaxAgeOptionEncoding()
    ensures EncodeOptions([RawOption(OPT_MAX_AGE, [100])]) == [0xD1, 0x01, 0x64]
  {
    assert [RawOption(OPT_MAX_AGE, [100])][..0] == [];
    assert OptionHeader(OptionDelta(0, OPT_MAX_AGE), 1) == [0xD1, 0x01];
  }

  lemma MaxAgeOptionBytes(p: Packet)
    requires p.csm == None && p.uriPath == [] && p.contentFormat < 0 && p.maxAge == 100
    ensures EncodeOptions(OptionList(p)) == [0xD1, 0x01, 0x64]
  {
    MaxAgeOnlyOptions(p);
    MaxAgeOptionEncoding();
  }

  /** A message without token or payload whose options fit the Len nibble. */
  lemma ShortMessage(p: Packet, e: seq<Byte>)
    requires p.token == [] && p.payload == [] && |e| < 13
    ensures Message(p, e) == [|e| * 16, p.code] + e
  {
    assert SizeHeader(|e|, 0) == [|e| * 16];
    assert Body(p, e) == [p.code] + e;
  }

  /** With the corrected header a packet whose only option is Max-Age 100, without token
      or payload, is the five bytes 0x30, the code, 0xD1 0x01 0x64. */
  lemma MaxAgeMessage(p: Packet)
    requires p.csm == None && p.uriPath == [] && p.maxAge == 100
    requires p.token == [] && p.payload == [] && p.contentFormat == NO_CONTENT_FORMAT
    ensures Encode(p) == [0x30, p.code, 0xD1, 0x01, 0x64]
  {
    var e := EncodeOptions(OptionList(p));
    MaxAgeOptionBytes(p);
    assert Encode(p) == Message(p, e);
    ShortMessage(p, e);
  }

  /** ... and it round-trips. */
  lemma MaxAgeHeaderCorrected(p: Packet)
    requires p.csm == None && p.uriPath == [] && p.maxAge == 100
    requires p.token == [] && p.payload == [] && p.contentFormat == NO_CONTENT_FORMAT
    ensures Decode(Encode(p)) == Success(Decoded(p, 5))
  {
    MaxAgeMessage(p);
    assert Encodable(p) by {
      assert UriSegments([]) == [];
      MaxAgeOptionBytes(p);
    }
    RoundTripExact(p);
  }

  /** A 260-byte payload after a one-byte token: the message length 261 goes in the Len
      nibble 13 and the extension byte 248. */
  lemma LargePayloadEncoding(payload: seq<Byte>)
    requires |payload| == 260
    ensures Encode(NewCoapPacket(CODE_412_PRECONDITION_FAILED, [12], payload))
            == [0xD1, 248, CODE_412_PRECONDITION_FAILED, 12, PAYLOAD_MARKER] + payload
  {
    assert OptionList(NewCoapPacket(CODE_412_PRECONDITION_FAILED, [12], payload)) == [];
    assert SizeHeader(261, 1) == [0xD1, 248];
  }

  /** The as-written decoder on a stream that opens with 0xD1 248: it reads 13 + 248 = 5
      modulo 256 as the length and so takes nine bytes, the code, the token byte, the marker
      and four payload bytes. */
  lemma NineBytesAsWritten(src: seq<Byte>)
    requires |src| >= 9 && src[0] == 0xD1 && src[1] == 248 && src[4] == PAYLOAD_MARKER
    ensures DecodeAsWritten(src) == Success(Decoded(NewCoapPacket(src[2], [src[3]], src[5..9]), 9))
  {
    var buf := src[2..9];
    assert ReadFrameAsWritten(src) == Success(Frame(1, buf, 9));
    assert buf[1..2] == [src[3]];
    assert ParseOptions(buf, 2, 0, EmptyPacket(src[2], [src[3]])) == Success(Parsed(EmptyPacket(src[2], [src[3]]), 2));
    assert buf[3..] == src[5..9];
  }

  /** As written, the decoder keeps the message length in a uint8: a packet of the codec
      tests, with a one-byte token and 260 bytes of payload, comes back with only the first
      four payload bytes after nine bytes of the stream. The symmetric decoder reads the
      whole message back. */
  lemma LargePayloadAsWritten(payload: seq<Byte>)
    requires |payload| == 260
    ensures var p := NewCoapPacket(CODE_412_PRECONDITION_FAILED, [12], payload);
      && DecodeAsWritten(Encode(p)) == Success(Decoded(p.(payload := payload[..4]), 9))
      && Decode(Encode(p)) == Success(Decoded(p, 265))
  {
    var src := [0xD1, 248, CODE_412_PRECONDITION_FAILED, 12, PAYLOAD_MARKER] + payload;
    LargePayloadEncoding(payload);
    NineBytesAsWritten(src);
    assert src[5..9] == payload[..4];
    NewPacketRoundTrip(CODE_412_PRECONDITION_FAILED, [12], payload);
  }
}
