/** Option encoding of `writeOptions`: option numbers 2, 4, 11, 12 and 14, written as
    delta/length headers (section 3.1 of RFC 7252) followed by the value bytes. */
module Options {

  import opened Wrappers
  import opened Bytes
  import opened Text
  import opened Packet

  /** Max-Message-Size and Block-Wise-Transfer (section 5.3 of RFC 8323). */
  const OPT_MAX_MESSAGE_SIZE: Byte := 2
  const OPT_BLOCK_WISE_TRANSFER: Byte := 4

  /** Uri-Path, Content-Format and Max-Age (section 5.10 of RFC 7252). */
  const OPT_URI_PATH: Byte := 11
  const OPT_CONTENT_FORMAT: Byte := 12
  const OPT_MAX_AGE: Byte := 14

  /** One option as the encoder emits it: its number and its value bytes. */
  datatype RawOption = RawOption(number: Byte, value: seq<Byte>)

  /** `delta`: the option number minus the previously written one, in byte arithmetic; the
      decoder adds it back to recover the number. */
  function OptionDelta(last: Byte, number: Byte): (d: Byte)
    ensures (last + d) % 256 == number
    ensures last <= number ==> d == number - last
  {
    (number - last) % 256
  }

  /** The header bytes `writeOptionHeader` should write for a delta and a value length, by the
      rule of section 3.1 of RFC 7252: a nibble of 13 is followed by one extension byte
      holding the amount minus 13, the delta's extension before the length's. */
  function OptionHeader(delta: Byte, size: Byte): (h: seq<Byte>)
    ensures 1 <= |h| <= 3 && h[0] != 0xFF
  {
    if delta <= 12 && size <= 12 then [delta * 16 + size]
    else if delta <= 12 then [delta * 16 + 13, size - 13]
    else if size <= 12 then [13 * 16 + size, delta - 13]
    else [13 * 16 + 13, delta - 13, size - 13]
  }

  /** `writeOptionHeader` as written: when the delta exceeds 12 and the length is below 12 it
      writes the nibble 13 but no delta extension byte, and a length of exactly 12 with a
      large delta falls to the last branch, whose `size - 13` wraps to 255. */
  function OptionHeaderAsWritten(delta: Byte, size: Byte): (h: seq<Byte>)
    ensures 1 <= |h| <= 3 && h[0] != 0xFF
    ensures h == OptionHeader(delta, size) <==> delta <= 12 || size > 12
  {
    if delta <= 12 && size <= 12 then [delta * 16 + size]
    else if delta <= 12 && size > 12 then [delta * 16 + 13, size - 13]
    else if delta > 12 && size < 12 then [13 * 16 + size]
    else [13 * 16 + 13, (delta - 13) % 256, (size - 13) % 256]
  }

  /** The number of the last option of a list, 0 before any. */
  function PrevNumber(opts: seq<RawOption>): Byte
  {
    if opts == [] then 0 else opts[|opts| - 1].number
  }

  /** One option written after an option numbered `last`: its header (the length is Go's
      `byte(len(value))`) and then its value. */
  function EncodeOption(last: Byte, o: RawOption): (e: seq<Byte>)
    ensures e != [] && e[0] != 0xFF
  {
    OptionHeader(OptionDelta(last, o.number), |o.value| % 256) + o.value
  }

  /** The bytes of a list of options, each delta taken from the option written before it. */
  function EncodeOptions(opts: seq<RawOption>): seq<Byte>
  {
    if opts == [] then []
    else
      var init := opts[..|opts| - 1];
      EncodeOptions(init) + EncodeOption(PrevNumber(init), opts[|opts| - 1])
  }

  /** `strings.Split(p.UriPath, "/")` has a second element, which `writeOptions` indexes
      whenever the path is non-empty: otherwise that index panics. */
  predicate UriSplittable(path: seq<Byte>)
  {
    path == [] || SLASH in path
  }

  /** Uri-Path options for path segments, in order. */
  function UriOptions(segs: seq<seq<Byte>>): (opts: seq<RawOption>)
    ensures |opts| == |segs|
  {
    if segs == [] then [] else UriOptions(segs[..|segs| - 1]) + [RawOption(OPT_URI_PATH, segs[|segs| - 1])]
  }

  lemma {:induction false} UriOptionsAt(segs: seq<seq<Byte>>, i: nat)
    requires i < |segs|
    ensures UriOptions(segs)[i] == RawOption(OPT_URI_PATH, segs[i])
  {
    if i < |segs| - 1 {
      UriOptionsAt(segs[..|segs| - 1], i);
    }
  }

  lemma {:induction false} UriOptionsNumbered(segs: seq<seq<Byte>>)
    ensures forall i :: 0 <= i < |segs| ==> UriOptions(segs)[i].number == OPT_URI_PATH
  {
    forall i | 0 <= i < |segs|
      ensures UriOptions(segs)[i].number == OPT_URI_PATH
    {
      UriOptionsAt(segs, i);
    }
  }

  /** The segments `writeOptions` emits: those after the first element of the split. */
  function UriSegments(path: seq<Byte>): seq<seq<Byte>>
    requires UriSplittable(path)
  {
    if path == [] then [] else Split(path, SLASH)[1..]
  }

  /** The value of a numeric option: big-endian, leading zero bytes stripped. */
  function UintValue(v: Uint32): (r: seq<Byte>)
    ensures |r| <= 4 && BeValue(r) == v
  {
    MinimalBytes(WriteUint32(v))
  }

  /** Options 2 and 4, for a packet that carries a capability record. */
  function CsmOptions(p: Packet): seq<RawOption>
  {
    (if p.csm.Some? then [RawOption(OPT_MAX_MESSAGE_SIZE, UintValue(p.csm.value.maxMessageSize))] else [])
    + (if p.csm.Some? && p.csm.value.blockWiseTransfer then [RawOption(OPT_BLOCK_WISE_TRANSFER, [])] else [])
  }

  function ContentFormatOptions(p: Packet): seq<RawOption>
  {
    if p.contentFormat >= 0 then [RawOption(OPT_CONTENT_FORMAT, [p.contentFormat % 256])] else []
  }

  function MaxAgeOptions(p: Packet): seq<RawOption>
  {
    if p.maxAge != DEFAULT_MAX_AGE then [RawOption(OPT_MAX_AGE, UintValue(p.maxAge))] else []
  }

  /** The options `writeOptions` emits for a packet, in the order it emits them. */
  function OptionList(p: Packet): (opts: seq<RawOption>)
    requires UriSplittable(p.uriPath)
    ensures opts == [] <==> !HasOptions(p)
  {
    assert p.uriPath != [] ==> |UriSegments(p.uriPath)| >= 1 by {
      if p.uriPath != [] { SplitCount(p.uriPath, SLASH); }
    }
    CsmOptions(p) + UriOptions(UriSegments(p.uriPath)) + ContentFormatOptions(p) + MaxAgeOptions(p)
  }

  /** Numbers in non-decreasing order, each between lo and hi and one the codec knows. */
  ghost predicate SortedWithin(s: seq<RawOption>, lo: int, hi: int)
  {
    && (forall i :: 0 <= i < |s| ==> lo <= s[i].number <= hi && s[i].number in {2, 4, 11, 12, 14})
    && (forall i, j :: 0 <= i < j < |s| ==> s[i].number <= s[j].number)
  }

  lemma SortedWithinAppend(s: seq<RawOption>, t: seq<RawOption>, lo: int, m: int, hi: int)
    requires lo <= m <= hi
    requires SortedWithin(s, lo, m) && SortedWithin(t, m, hi)
    ensures SortedWithin(s + t, lo, hi)
  {
  }

  lemma CsmOptionsSorted(p: Packet)
    ensures SortedWithin(CsmOptions(p), 2, 4)
  {
  }

  lemma {:induction false} UriOptionsSorted(segs: seq<seq<Byte>>)
    ensures SortedWithin(UriOptions(segs), 4, 11)
  {
    UriOptionsNumbered(segs);
  }

  lemma ContentFormatOptionsSorted(p: Packet)
    ensures SortedWithin(ContentFormatOptions(p), 11, 12)
  {
  }

  lemma MaxAgeOptionsSorted(p: Packet)
    ensures SortedWithin(MaxAgeOptions(p), 12, 14)
  {
  }

  /** Options are emitted in non-decreasing number order, only the five numbers the codec
      knows, with one Uri-Path option per segment after the first split element. */
  lemma OptionListOrdered(p: Packet)
    requires UriSplittable(p.uriPath)
    ensures SortedWithin(OptionList(p), 2, 14)
    ensures |OptionList(p)| == (if p.csm.Some? then 1 else 0)
                               + (if p.csm.Some? && p.csm.value.blockWiseTransfer then 1 else 0)
                               + |UriSegments(p.uriPath)|
                               + (if p.contentFormat >= 0 then 1 else 0)
                               + (if p.maxAge != DEFAULT_MAX_AGE then 1 else 0)
  {
    var a, c := CsmOptions(p), UriOptions(UriSegments(p.uriPath));
    var d, e := ContentFormatOptions(p), MaxAgeOptions(p);
    CsmOptionsSorted(p);
    UriOptionsSorted(UriSegments(p.uriPath));
    ContentFormatOptionsSorted(p);
    MaxAgeOptionsSorted(p);
    SortedWithinAppend(a, c, 2, 4, 11);
    SortedWithinAppend(a + c, d, 2, 11, 12);
    SortedWithinAppend(a + c + d, e, 2, 12, 14);
  }

  /** Appending one option appends its encoding. */
  lemma {:induction false} EncodeOptionsSnoc(opts: seq<RawOption>, o: RawOption)
    ensures EncodeOptions(opts + [o]) == EncodeOptions(opts) + EncodeOption(PrevNumber(opts), o)
  {
    assert (opts + [o])[..|opts + [o]| - 1] == opts;
  }

  /** The header `writeOptionHeaderDynamicSize` writes, with the zero-stripping loop of the
      source; the loop stops at an empty value, where the source indexes past the end. */
  method WriteOptionHeaderDynamicSize(delta: Byte, data: seq<Byte>) returns (bytes: seq<Byte>)
    ensures bytes == OptionHeader(delta, |MinimalBytes(data)| % 256) + MinimalBytes(data)
  {
    var minData := data;
    while minData != [] && minData[0] == 0
      invariant MinimalBytes(minData) == MinimalBytes(data)
      decreases |minData|
    {
      minData := minData[1..];
    }
    bytes := OptionHeader(delta, |minData| % 256) + minData;
  }

  /** One more segment of the Uri-Path option list. */
  lemma UriOptionsStep(written0: seq<RawOption>, uriPaths: seq<seq<Byte>>, i: nat)
    requires 1 <= i < |uriPaths|
    ensures written0 + UriOptions(uriPaths[1..i + 1])
            == written0 + UriOptions(uriPaths[1..i]) + [RawOption(OPT_URI_PATH, uriPaths[i])]
  {
    assert uriPaths[1..i + 1][..i - 1] == uriPaths[1..i];
  }

  /** `writeOptionHeader(optWriter, delta(&lastOptNum, number), data)`: one option appended
      to the buffer, its delta taken from the last option number, which then becomes `number`. */
  method WriteOption(buf: seq<Byte>, lastOptNum: Byte, ghost written: seq<RawOption>, number: Byte, data: seq<Byte>)
    returns (buf': seq<Byte>, lastOptNum': Byte, ghost written': seq<RawOption>)
    requires buf == EncodeOptions(written) && lastOptNum == PrevNumber(written)
    ensures written' == written + [RawOption(number, data)]
    ensures buf' == EncodeOptions(written') && lastOptNum' == number == PrevNumber(written')
  {
    var d := OptionDelta(lastOptNum, number);
    lastOptNum' := number;
    EncodeOptionsSnoc(written, RawOption(number, data));
    buf' := buf + (OptionHeader(d, |data| % 256) + data);
    written' := written + [RawOption(number, data)];
  }

  /** `writeOptionHeaderDynamicSize(optWriter, delta(&lastOptNum, number), writeUint32(v))`:
      a uint option appended with its leading zero bytes dropped. */
  method WriteUintOption(buf: seq<Byte>, lastOptNum: Byte, ghost written: seq<RawOption>, number: Byte, v: Uint32)
    returns (buf': seq<Byte>, lastOptNum': Byte, ghost written': seq<RawOption>)
    requires buf == EncodeOptions(written) && lastOptNum == PrevNumber(written)
    ensures written' == written + [RawOption(number, UintValue(v))]
    ensures buf' == EncodeOptions(written') && lastOptNum' == number == PrevNumber(written')
  {
    var d := OptionDelta(lastOptNum, number);
    lastOptNum' := number;
    var h := WriteOptionHeaderDynamicSize(d, WriteUint32(v));
    EncodeOptionsSnoc(written, RawOption(number, UintValue(v)));
    buf' := buf + h;
    written' := written + [RawOption(number, UintValue(v))];
  }

  /** `writeOptionHeader(optWriter, 0, segment)`: a further Uri-Path segment, written with
      the literal delta 0 right after another Uri-Path option. */
  method WriteUriSegment(buf: seq<Byte>, ghost written: seq<RawOption>, segment: seq<Byte>)
    returns (buf': seq<Byte>, ghost written': seq<RawOption>)
    requires buf == EncodeOptions(written) && PrevNumber(written) == OPT_URI_PATH
    ensures written' == written + [RawOption(OPT_URI_PATH, segment)]
    ensures buf' == EncodeOptions(written') && PrevNumber(written') == OPT_URI_PATH
  {
    EncodeOptionsSnoc(written, RawOption(OPT_URI_PATH, segment));
    buf' := buf + (OptionHeader(0, |segment| % 256) + segment);
    written' := written + [RawOption(OPT_URI_PATH, segment)];
  }

  /** The loop of the Uri-Path part of `writeOptions`: every split element from the third on,
      each with the literal delta 0. */
  method WriteUriSegments(uriPaths: seq<seq<Byte>>, opts0: seq<Byte>, ghost base: seq<RawOption>, ghost written0: seq<RawOption>)
    returns (opts: seq<Byte>, ghost written: seq<RawOption>)
    requires |uriPaths| >= 2 && written0 == base + UriOptions(uriPaths[1..2])
    requires opts0 == EncodeOptions(written0) && PrevNumber(written0) == OPT_URI_PATH
    ensures written == base + UriOptions(uriPaths[1..])
    ensures opts == EncodeOptions(written) && PrevNumber(written) == OPT_URI_PATH
  {
    opts, written := opts0, written0;
    var i := 2;
    while i < |uriPaths|
      invariant 2 <= i <= |uriPaths|
      invariant PrevNumber(written) == OPT_URI_PATH
      invariant written == base + UriOptions(uriPaths[1..i])
      invariant opts == EncodeOptions(written)
    {
      UriOptionsStep(base, uriPaths, i);
      opts, written := WriteUriSegment(opts, written, uriPaths[i]);
      i := i + 1;
    }
    assert uriPaths[1..i] == uriPaths[1..];
  }

  /** The Uri-Path part of `writeOptions`: the second split element with the delta from the
      last option number, then the later elements. */
  method WriteUriPath(path: seq<Byte>, opts0: seq<Byte>, lastOptNum: Byte, ghost written0: seq<RawOption>)
    returns (opts: seq<Byte>, ghost written: seq<RawOption>)
    requires path != [] && UriSplittable(path)
    requires opts0 == EncodeOptions(written0) && lastOptNum == PrevNumber(written0)
    ensures written == written0 + UriOptions(UriSegments(path))
    ensures opts == EncodeOptions(written) && PrevNumber(written) == OPT_URI_PATH
  {
    var uriPaths: seq<seq<Byte>> := Split(path, SLASH);
    SplitCount(path, SLASH);
    var last;
    UriOptionsStep(written0, uriPaths, 1);
    opts, last, written := WriteOption(opts0, lastOptNum, written0, OPT_URI_PATH, uriPaths[1]);
    opts, written := WriteUriSegments(uriPaths, opts, written0, written);
  }

  /** The CSM part of `writeOptions` (options 2 and 4), from an empty buffer. */
  method WriteCsmOptions(p: Packet) returns (opts: seq<Byte>, lastOptNum: Byte, ghost written: seq<RawOption>)
    ensures written == CsmOptions(p)
    ensures opts == EncodeOptions(written) && lastOptNum == PrevNumber(written)
  {
    opts, lastOptNum, written := [], 0, [];
    // #2
    if p.csm.Some? {
      opts, lastOptNum, written := WriteUintOption(opts, lastOptNum, written, OPT_MAX_MESSAGE_SIZE, p.csm.value.maxMessageSize);
    }
    // #4
    if p.csm.Some? && p.csm.value.blockWiseTransfer {
      opts, lastOptNum, written := WriteOption(opts, lastOptNum, written, OPT_BLOCK_WISE_TRANSFER, []);
    }
  }

  /** `writeOptions`: appends each present option to a buffer in increasing option-number
      order, tracking the last option number written. */
  method WriteOptions(p: Packet) returns (opts: seq<Byte>)
    requires UriSplittable(p.uriPath)
    ensures opts == EncodeOptions(OptionList(p))
  {
    var lastOptNum: Byte;
    ghost var written: seq<RawOption>;
    opts, lastOptNum, written := WriteCsmOptions(p);
    ghost var stage := written;

    // #11 uri-path
    if p.uriPath != [] {
      opts, written := WriteUriPath(p.uriPath, opts, lastOptNum, written);
      lastOptNum := OPT_URI_PATH;
    }
    assert written == stage + UriOptions(UriSegments(p.uriPath));
    stage := written;

    // #12 content-format
    if p.contentFormat >= 0 {
      opts, lastOptNum, written := WriteOption(opts, lastOptNum, written, OPT_CONTENT_FORMAT, [p.contentFormat % 256]);
    }
    assert written == stage + ContentFormatOptions(p);
    stage := written;

    // #14 max-age
    if p.maxAge != DEFAULT_MAX_AGE {
      opts, lastOptNum, written := WriteUintOption(opts, lastOptNum, written, OPT_MAX_AGE, p.maxAge);
    }
    assert written == stage + MaxAgeOptions(p);
  }

  /** One option as `writeOptionHeader` writes it after an option numbered `last`. It is
      the corrected encoding exactly when the as-written header is. */
  function EncodeOptionAsWritten(last: Byte, o: RawOption): (e: seq<Byte>)
    ensures e == EncodeOption(last, o) <==> OptionDelta(last, o.number) <= 12 || |o.value| % 256 > 12
  {
    var d, size := OptionDelta(last, o.number), |o.value| % 256;
    var h, h' := OptionHeaderAsWritten(d, size), OptionHeader(d, size);
    assert h + o.value == h' + o.value ==> |h| == |h'| && h == (h + o.value)[..|h|];
    h + o.value
  }

  /** The bytes `writeOptions` writes for a list of options, with the as-written header. */
  function EncodeOptionsAsWritten(opts: seq<RawOption>): (e: seq<Byte>)
    ensures |opts| <= |e|
    ensures opts == [] <==> e == []
  {
    if opts == [] then []
    else
      var init := opts[..|opts| - 1];
      EncodeOptionsAsWritten(init) + EncodeOptionAsWritten(PrevNumber(init), opts[|opts| - 1])
  }

  /** In an ordered list of known options that does not open with Max-Age every delta is at
      most 12, so the as-written header is the corrected one throughout. */
  lemma {:induction false} EncodeOptionsAsWrittenAgrees(opts: seq<RawOption>)
    requires SortedWithin(opts, 2, 14)
    requires opts == [] || opts[0].number != OPT_MAX_AGE
    ensures EncodeOptionsAsWritten(opts) == EncodeOptions(opts)
    decreases |opts|
  {
    if opts != [] {
      var init, o := opts[..|opts| - 1], opts[|opts| - 1];
      assert SortedWithin(init, 2, 14);
      EncodeOptionsAsWrittenAgrees(init);
      if init != [] {
        assert init[|init| - 1] == opts[|opts| - 2];
        assert PrevNumber(init) <= o.number;
      }
      assert OptionDelta(PrevNumber(init), o.number) <= 12;
    }
  }

  /** A packet whose one option is a Max-Age other than 60: the case in which `writeOptions`
      starts with a delta of 14. */
  predicate LoneMaxAge(p: Packet)
  {
    p.csm == None && p.uriPath == [] && p.contentFormat < 0 && p.maxAge != DEFAULT_MAX_AGE
  }

  /** `writeOptions` as written: None where its zero-stripping loop panics on a Max-Message-Size
      or a Max-Age of 0, otherwise the options with the as-written header (the stripped
      values are then the minimal forms, by MinimalBytesAsWrittenPanics). */
  function WriteOptionsAsWritten(p: Packet): (r: Option<seq<Byte>>)
    requires UriSplittable(p.uriPath)
    ensures r.None? <==> (p.csm.Some? && p.csm.value.maxMessageSize == 0) || p.maxAge == 0
  {
    MinimalBytesAsWrittenPanics(WriteUint32(if p.csm.Some? then p.csm.value.maxMessageSize else 1));
    MinimalBytesAsWrittenPanics(WriteUint32(p.maxAge));
    if p.csm.Some? && MinimalBytesAsWritten(WriteUint32(p.csm.value.maxMessageSize)).None? then None
    else if p.maxAge != DEFAULT_MAX_AGE && MinimalBytesAsWritten(WriteUint32(p.maxAge)).None? then None
    else Some(EncodeOptionsAsWritten(OptionList(p)))
  }

  /** Only a lone Max-Age puts option 14 first. */
  lemma {:induction false} OptionListFirst(p: Packet)
    requires UriSplittable(p.uriPath) && !LoneMaxAge(p)
    ensures OptionList(p) == [] || OptionList(p)[0].number != OPT_MAX_AGE
  {
    var opts := OptionList(p);
    if p.csm.Some? {
      assert opts[0] == CsmOptions(p)[0];
    } else if p.uriPath != [] {
      SplitCount(p.uriPath, SLASH);
      UriOptionsAt(UriSegments(p.uriPath), 0);
      assert opts[0] == UriOptions(UriSegments(p.uriPath))[0];
    } else if p.contentFormat >= 0 {
      assert opts[0] == ContentFormatOptions(p)[0];
    } else {
      assert opts == [];
    }
  }

  /** A first option numbered 14 with a short value is written one byte short. */
  lemma {:induction false} FirstMaxAgeShort(v: seq<Byte>)
    requires |v| <= 4
    ensures |EncodeOptionsAsWritten([RawOption(OPT_MAX_AGE, v)])| + 1 == |EncodeOptions([RawOption(OPT_MAX_AGE, v)])|
  {
    var opts := [RawOption(OPT_MAX_AGE, v)];
    assert opts[..0] == [];
    assert |OptionHeaderAsWritten(14, |v| % 256)| == 1;
    assert |OptionHeader(14, |v| % 256)| == 2;
  }

  /** A lone Max-Age is written one byte short: the delta extension byte is left out. */
  lemma {:induction false} LoneMaxAgeShort(p: Packet)
    requires LoneMaxAge(p)
    ensures |EncodeOptionsAsWritten(OptionList(p))| + 1 == |EncodeOptions(OptionList(p))|
  {
    var v := UintValue(p.maxAge);
    assert OptionList(p) == [RawOption(OPT_MAX_AGE, v)];
    FirstMaxAgeShort(v);
  }

  /** Where `writeOptions` as written does not panic, it writes the corrected options except
      for a lone Max-Age, where it leaves out the delta extension byte. */
  lemma {:induction false} WriteOptionsAsWrittenAgrees(p: Packet)
    requires UriSplittable(p.uriPath) && WriteOptionsAsWritten(p).Some?
    ensures !LoneMaxAge(p) ==> WriteOptionsAsWritten(p).value == EncodeOptions(OptionList(p))
    ensures LoneMaxAge(p) ==> |WriteOptionsAsWritten(p).value| + 1 == |EncodeOptions(OptionList(p))|
  {
    assert WriteOptionsAsWritten(p).value == EncodeOptionsAsWritten(OptionList(p));
    if LoneMaxAge(p) {
      LoneMaxAgeShort(p);
    } else {
      OptionListOrdered(p);
      OptionListFirst(p);
      EncodeOptionsAsWrittenAgrees(OptionList(p));
    }
  }
}
