# CoAP over TCP: codec, server, client, example resource and command line

This project is a Dafny model of `go-coap-tcp`, a small Go implementation of CoAP over TCP (RFC 8323).

- **Codec.** `CoapPacket` is an in-memory message.
  - `Write` frames a message the way section 3.2 of RFC 8323 lays it out: a Len/TKL byte, 0 to 3 extended-length bytes, the code, the token, the options, and then the 0xFF marker and the payload if there is one.
  - Options use the delta/length nibbles of section 3.1 of RFC 7252. The option numbers are 2, 4, 11, 12 and 14.
  - `ReadCoap` parses one message from a byte stream.
- **Server.** `CoapServer` keeps a table of handlers, one per path. On each connection it writes its capability message (CSM), and it goes on only if the first message it reads is a CSM that carries capabilities. After that it answers requests one at a time: a ping gets a pong, a method (codes 1 to 4) goes to the handler registered for exactly its path or gets 4.04, and any other code gets nothing.
- **Client.** `CoapClient` does the same handshake from the other side. It draws tokens from a `uint32` counter and sends ping, GET, POST, PUT and DELETE requests.
- **Example resource.** The example server's read/write resource stores a payload, a Content-Format and a Max-Age. GET reads them, PUT overwrites them and DELETE resets them.
- **Command line.** The client tool parses a method name and builds the request from its flags and arguments.

The Go fixed-width types are subset types of `int`: `Byte`, `Uint32` and `Int16`. Their wrap-around is written out where the source depends on it. Go strings are byte strings (`seq<Byte>`). In the decoder a Go panic becomes an error value. The encoder's panic on a non-empty path without '/' becomes a precondition (`UriSplittable`). The encoder (`Framing.Write`, `Options.WriteOptions`) writes what the source evidently intends rather than what it does in two cases: a zero Max-Message-Size or Max-Age, where the source panics, is written as an empty value, and a packet whose only option is Max-Age gets the delta's extension byte that the source leaves out. `Options.WriteOptionsAsWritten` and `Framing.EncodeAsWritten` model the source's bytes, and `Framing.EncodeAsWrittenAgrees` states exactly where they differ (see Left out and Findings).

The module layout follows the source:
- `Bytes`: `readUint32`, `writeUint32` and zero stripping.
- `Text`: `strings.Split` and `strings.Join`.
- `Packet`: the packet, its codes and `StringCode`.
- `Options`: `writeOptions` and its helpers.
- `Framing`: `Write`.
- `Decoding`: `ReadCoap`.
- `Codec`: the round trip between the two.
- `Server`, `Client` and `Session`: the two ends of a connection, and the two ends together.
- `Resource`: the example handler.
- `Cli`: the command line.

**Decoder.** The model has two decoders.
- `Decoding.Decode` is symmetric with `Write`. It reads the 1, 2 or 3 extension bytes of Len nibbles 13, 14 and 15 as a big-endian number, and it uses unbounded arithmetic. Every round-trip lemma is stated about this decoder.
- `Decoding.DecodeAsWritten` decodes as the source does. It knows only the extension byte of nibble 13, and it keeps the message length in a `uint8`.
- `Decoding.AsWrittenAgrees` proves the two decoders equal wherever the source's arithmetic does not wrap.

**Tier 15.** For Len nibble 15, `Write` emits three extension bytes, and the model follows it. Section 3.2 of RFC 8323 specifies four bytes for that tier.

**Option headers.** The option header the encoder uses (`Options.OptionHeader`) writes the delta's extension byte whenever the delta exceeds 12, as section 3.1 of RFC 7252 requires. The branch as written omits that byte (see Findings). `Options.OptionHeaderAsWritten` models that branch; `Options.WriteOptionsAsWrittenAgrees` shows that option lists as `writeOptions` orders them meet it only when Max-Age is the one option.

**Connections.** A connection is modelled as values.
- The server reads a sequence of packets, ending where a read fails, and produces the sequence of packets it writes.
- The client's connection is a `Conn` object holding the packets written so far and the results of the reads still to come.

## Model

| member | source | states |
|---|---|---|
| Bytes.WriteUint32 | coap/CoapPacket.go:389-391 | four bytes whose big-endian value is the number |
| Bytes.ReadUint32 | coap/CoapPacket.go:370-387 | defined exactly for values of at most four bytes (more is the "not supported" panic), and then the value's big-endian number |
| Bytes.MinimalBytes | coap/CoapPacket.go:360-366 | leading zero bytes dropped: the same number, no leading zero left, a suffix of the input |
| Bytes.MinimalBytesAsWrittenPanics | coap/CoapPacket.go:362-365 | the source's stripping loop indexes past the end exactly when every byte is zero, and otherwise gives the minimal form |
| Bytes.MinimalBytesAsWritten | coap/CoapPacket.go:360-366 | definition of the stripping loop as written: when it does not panic, a suffix of the input whose first byte is not zero |
| Bytes.ZeroValueAsWritten | coap/CoapPacket.go:362-365 | the uint32 value 0 makes the as-written loop panic, where its minimal form is empty |
| Bytes.BeValueBound | coap/CoapPacket.go:370-387 | n bytes denote a number below 256^n, so four bytes fit a uint32 |
| Bytes.BeValueLeadingZero | coap/CoapPacket.go:362-365 | a leading zero byte does not change the number a value denotes |
| Bytes.BeValueLeadingNonZero | coap/CoapPacket.go:362-365 | a value whose first byte is not zero denotes a non-zero number |
| Text.Split | coap/CoapPacket.go:321 | `strings.Split` always yields at least one piece |
| Text.SplitPieces | coap/CoapPacket.go:321 | no piece holds the separator, and there is more than one piece exactly when the string holds a separator |
| Text.SplitCount | coap/CoapPacket.go:321-322 | a string holding the separator splits into at least two pieces, so `uriPaths[1]` exists |
| Text.Join | coap-cli/Main.go:39 | definition of `strings.Join`: the first word starts the result, followed by the separator when there is a second; Text.JoinSplit and Text.SplitJoin prove it inverts `strings.Split` |
| Text.JoinSplit | coap/CoapPacket.go:321 | joining the pieces of a split gives the string back |
| Text.SplitJoin | coap-cli/Main.go:39 | splitting a join of separator-free words at the separator gives the words back |
| Text.SplitWord | coap/CoapPacket.go:321 | splitting a separator-free word, a separator and a tail gives the word and then the tail's pieces |
| Text.PrefixJoinHead | coap/CoapPacket.go:175-176 | a path rebuilt from segments is empty or starts with '/' |
| Text.PrefixJoin | coap/CoapPacket.go:175-176 | definition of the `UriPath += "/" + string(optVal)` accumulation; Text.PrefixJoinHead and Text.PrefixJoinIsJoin prove it starts with '/' and is a join after an empty first piece |
| Text.JoinSnoc | coap-cli/Main.go:39 | joining one more word appends a separator and the word |
| Text.PrefixJoinIsJoin | coap/CoapPacket.go:175-176 | rebuilding a path from segments is joining them after an empty first piece |
| Text.PathRebuilt | coap/CoapPacket.go:319-327 | a path starting with '/' is rebuilt exactly from the split elements after the first |
| Packet.NewCoapPacket | coap/CoapPacket.go:44-46 | code, token and payload as given, and no option differs from its default |
| Packet.IsCsmMessage | coap/CoapServer.go:126 | definition of the handshake test `Code == CODE_701_CSM && CSM != nil`, also at coap/CoapClient.go:57; Session.SameHandshakeCheck proves the client and the server apply it alike |
| Packet.CodeClass | coap/CoapPacket.go:291 | the class of a code is between 0 and 7 |
| Packet.CodeDetail | coap/CoapPacket.go:291 | the detail is below 32, and class times 32 plus detail is the code |
| Packet.StringCode | coap/CoapPacket.go:280-295 | definition of `StringCode`: a method prints as an upper-case name of three to six letters, any other code as four characters "c.dd"; Packet.StringCodeReadsBack proves which |
| Packet.StringCodeReadsBack | coap/CoapPacket.go:280-295 | codes 1 to 4 print as GET, POST, PUT and DELETE; every other code prints as a "c.dd" text that reads back as that code |
| Packet.StringCodeInjective | coap/CoapPacket.go:280-295 | two codes printed alike are the same code |
| Packet.StringCodeContent | coap/CoapPacket.go:280-295 | 2.05 prints as "2.05" |
| Options.OptionDelta | coap/CoapPacket.go:297-302 | the previous number plus the delta is the option number modulo 256, and for a number that does not decrease the delta is the difference |
| Options.OptionHeader | coap/CoapPacket.go:342-358 | one to three header bytes, the first never the payload marker; Codec.HeaderReads proves the decoder reads them back as the delta and the length |
| Options.OptionHeaderAsWritten | coap/CoapPacket.go:342-358 | definition of `writeOptionHeader` as written: one to three bytes, never the marker first, and equal to the corrected header exactly when the delta is at most 12 or the length exceeds 12 |
| Options.EncodeOption | coap/CoapPacket.go:342-358 | a written option is never empty and never starts with the payload marker |
| Options.EncodeOptions | coap/CoapPacket.go:304-340 | definition of the option bytes of `writeOptions`, each option after the one before it; Codec.EncodeOptionsLength bounds their length and Codec.ParseThrough proves the decoder loop reads every option back |
| Options.OptionList | coap/CoapPacket.go:304-340 | definition of the options `writeOptions` emits: the list is empty exactly when the packet has no option to write; Options.OptionListOrdered gives its order and counts |
| Options.UriOptions | coap/CoapPacket.go:319-327 | one Uri-Path option per segment |
| Options.UriOptionsAt | coap/CoapPacket.go:322-326 | the i-th Uri-Path option holds the i-th segment |
| Options.UriOptionsNumbered | coap/CoapPacket.go:322-326 | every emitted Uri-Path option has number 11 |
| Options.UriSegments | coap/CoapPacket.go:321-326 | definition of the split elements from index 1 that `writeOptions` writes; Text.PathRebuilt proves they rebuild the path, and Codec.ReplayUri that the decoder rebuilds it from their options |
| Options.CsmOptions | coap/CoapPacket.go:308-316 | definition of the #2 and #4 blocks; Options.CsmOptionsSorted gives their order and Codec.ReplayCsm their reading back |
| Options.ContentFormatOptions | coap/CoapPacket.go:329-332 | definition of the #12 block; Options.ContentFormatOptionsSorted gives its place and Codec.ReplayContentFormat its reading back |
| Options.MaxAgeOptions | coap/CoapPacket.go:334-337 | definition of the #14 block; Options.MaxAgeOptionsSorted gives its place and Codec.ReplayMaxAge its reading back |
| Options.UintValue | coap/CoapPacket.go:360-368 | a numeric option value takes at most four bytes and denotes the number |
| Options.SortedWithinAppend | coap/CoapPacket.go:304-340 | two ordered runs, one below the other, make an ordered run |
| Options.CsmOptionsSorted | coap/CoapPacket.go:308-316 | the capability options are numbered 2 then 4 |
| Options.UriOptionsSorted | coap/CoapPacket.go:319-327 | the Uri-Path options come after the capability options |
| Options.ContentFormatOptionsSorted | coap/CoapPacket.go:329-332 | the Content-Format option comes after the Uri-Path options |
| Options.MaxAgeOptionsSorted | coap/CoapPacket.go:334-337 | the Max-Age option comes last |
| Options.OptionListOrdered | coap/CoapPacket.go:304-340 | options go out in non-decreasing number order, only the numbers 2, 4, 11, 12 and 14; options 2 and 4 whenever a capability record is present (4 only for block-wise transfer), one option 11 per segment after the first split element, 12 when the format is not negative, and 14 when the age is not 60 |
| Options.EncodeOptionsSnoc | coap/CoapPacket.go:304-340 | writing one more option appends its encoding, with the delta from the option before it |
| Options.UriOptionsStep | coap/CoapPacket.go:324-326 | one more loop iteration adds the next segment's option |
| Options.WriteOptionHeaderDynamicSize | coap/CoapPacket.go:360-368 | the header for the stripped value, then the stripped value |
| Options.WriteOption | coap/CoapPacket.go:297-302 | the buffer grows by the option's encoding after the last number, which then becomes the option's number |
| Options.WriteUintOption | coap/CoapPacket.go:360-368 | the buffer grows by a numeric option holding the number's minimal bytes |
| Options.WriteUriSegment | coap/CoapPacket.go:325 | a further segment written with the literal delta 0 is the encoding of a Uri-Path option after another one |
| Options.WriteUriSegments | coap/CoapPacket.go:324-326 | the loop writes one Uri-Path option for each split element from the third on |
| Options.WriteUriPath | coap/CoapPacket.go:319-327 | the Uri-Path part writes one option per segment after the first split element |
| Options.WriteCsmOptions | coap/CoapPacket.go:308-316 | the capability part writes the encoding of options 2 and 4 |
| Options.WriteOptions | coap/CoapPacket.go:304-340 | the buffer holds the encoding of the packet's option list, in emission order |
| Options.EncodeOptionAsWritten | coap/CoapPacket.go:342-358 | one option as written equals the corrected encoding exactly when its delta is at most 12 or its length exceeds 12 |
| Options.EncodeOptionsAsWritten | coap/CoapPacket.go:304-340 | definition of the option bytes with the as-written header: at least one byte per option, and none exactly for no options |
| Options.EncodeOptionsAsWrittenAgrees | coap/CoapPacket.go:342-358 | an ordered list of known options that does not open with Max-Age has every delta at most 12, so as written it is the corrected encoding |
| Options.OptionListFirst | coap/CoapPacket.go:304-340 | only a packet whose one option is Max-Age puts option 14 first |
| Options.FirstMaxAgeShort | coap/CoapPacket.go:349-350 | a first option 14 with a value of at most four bytes is written one byte short, without its delta byte |
| Options.LoneMaxAgeShort | coap/CoapPacket.go:334-337 | a lone Max-Age is written one byte shorter than the corrected encoding |
| Options.WriteOptionsAsWritten | coap/CoapPacket.go:304-340 | `writeOptions` as written fails exactly for a zero Max-Message-Size or a zero Max-Age, where its stripping loop panics |
| Options.WriteOptionsAsWrittenAgrees | coap/CoapPacket.go:304-358 | where it does not panic, `writeOptions` as written gives the corrected option bytes except for a lone Max-Age, which it writes one byte short |
| Framing.ExtSize | coap/CoapPacket.go:206-218 | a Len nibble is followed by at most three extension bytes |
| Framing.LenTklFields | coap/CoapPacket.go:207-217 | the Len nibble and the token length read back from the first byte |
| Framing.LenTkl | coap/CoapPacket.go:207-216 | definition of `firstByte`, `byte(nibble<<4) + byte(len(p.Token))`; Framing.LenTklFields proves the nibble and the token length read back from it |
| Framing.MessageLength | coap/CoapPacket.go:198-202 | definition of `msgLen`: option bytes, payload and, for a non-empty payload, the marker; Framing.Body and Framing.SizeHeaderFields prove what the header and body make of it |
| Framing.SizeHeader | coap/CoapPacket.go:204-218 | the size header takes one to four bytes; Framing.SizeHeaderFields proves what the nibbles and extension bytes hold |
| Framing.TwoBytes | coap/CoapPacket.go:212-213 | the two tier-14 extension bytes denote the extension |
| Framing.ThreeBytes | coap/CoapPacket.go:215-217 | the three tier-15 extension bytes denote the extension |
| Framing.SizeHeaderFields | coap/CoapPacket.go:198-218 | the high nibble names the tier (below 13 exactly for lengths below 13), the low nibble is the token length, and the extension bytes hold the length minus the tier's base |
| Framing.PayloadPart | coap/CoapPacket.go:235-242 | definition of the payload writes of `Write` (nothing for an empty payload, otherwise the marker and the payload); Decoding.PayloadReadsBack proves the decoder reads the payload back from it, and Codec.ParseStops and Codec.RoundTrip do so inside a whole message |
| Framing.Body | coap/CoapPacket.go:223-242 | after the header come exactly the message length plus the token plus the code byte |
| Framing.MessageEndsWithPayload | coap/CoapPacket.go:198-242 | a message ends with the payload, preceded by the marker when the payload is not empty |
| Framing.MessageLonger | coap/CoapPacket.go:204-218 | more option bytes always make a longer message |
| Framing.WriteSizeHeader | coap/CoapPacket.go:204-218 | the tier-by-tier writes give the size header |
| Framing.WriteMessage | coap/CoapPacket.go:198-242 | the writes give the header, code, token, options and payload part |
| Framing.Write | coap/CoapPacket.go:193-245 | the bytes written are the encoding of the packet |
| Framing.Encode | coap/CoapPacket.go:193-245 | definition of the bytes `Write` emits; Framing.MessageEndsWithPayload proves they end with the payload, after the marker when there is one, and Codec.RoundTrip that the decoder gives the packet back |
| Framing.EncodeAsWritten | coap/CoapPacket.go:193-245 | `Write` as written: it fails exactly for a zero Max-Message-Size or a zero Max-Age, where the source panics |
| Framing.EncodeAsWrittenAgrees | coap/CoapPacket.go:342-358 | where `Write` as written does not panic, its bytes are Encode's exactly when the packet is not a lone Max-Age |
| Framing.EncodeSimplest | coap/CoapPacket_test.go:92-105 | an empty 2.05 is the two bytes 0x00 0x45 |
| Framing.EncodeTokenAndPayload | coap/CoapPacket_test.go:107-120 | token 1 2 with payload 0x10 0x11 0x12 is 0x42 0x45 0x01 0x02 0xff 0x10 0x11 0x12 |
| Decoding.ReadFull | coap/CoapPacket.go:130-133 | a read succeeds exactly when enough bytes remain, and then gives those bytes |
| Decoding.EmptyPacket | coap/CoapPacket.go:137-139 | the packet the decoder starts from has the code and token read, and every option at its default |
| Decoding.ApplyOption | coap/CoapPacket.go:160-181 | one option leaves code, token and payload alone, can fail only for options 2, 12 and 14, and leaves the packet unchanged for numbers the decoder does not know |
| Decoding.OptionStep | coap/CoapPacket.go:143-158 | one iteration moves the cursor forward without passing the buffer's end, and keeps code and token |
| Decoding.Extended | coap/CoapPacket.go:146-153 | definition of the extended delta or length in `uint8`: subtracting 13 in byte arithmetic gives the extension byte back, and below 243 it is 13 plus the byte |
| Decoding.ParseOptions | coap/CoapPacket.go:141-182 | the option loop ends inside the buffer with the code and token unchanged |
| Decoding.ParseOptionsStops | coap/CoapPacket.go:142 | the loop stops only at the end of the buffer or at the payload marker |
| Decoding.PayloadAfter | coap/CoapPacket.go:184-188 | definition of the payload read after the option loop (everything after a remaining marker, otherwise empty); Decoding.PayloadReadsBack proves it inverts the writer's payload part |
| Decoding.PayloadReadsBack | coap/CoapPacket.go:184-188 | the payload part the writer emits, after any bytes, reads back as exactly the payload |
| Decoding.ParseBody | coap/CoapPacket.go:135-190 | a parsed body has the first byte as code and the next tkl bytes as token, and a body too short for them is an error |
| Decoding.ReadFrame | coap/CoapPacket.go:111-133 | the frame is taken from the start of the stream without over-reading, the buffer is the last bytes consumed, and an empty stream is end of stream |
| Decoding.ReadFrameAsWritten | coap/CoapPacket.go:117-133 | the as-written frame's buffer is never longer than 255 bytes |
| Decoding.DecodeFrame | coap/CoapPacket.go:135-190 | the decoded message consumed as much as its frame |
| Decoding.Decode | coap/CoapPacket.go:108-191 | a decoded message consumed at least one byte and no more than the stream holds |
| Decoding.DecodeAsWritten | coap/CoapPacket.go:108-191 | the as-written decoder does not over-read either |
| Decoding.AsWrittenAgrees | coap/CoapPacket.go:117-133 | with a Len nibble of at most 13 and a total of at most 255 bytes, the as-written and the symmetric decoder agree |
| Decoding.FrameIgnoresTrailing | coap/CoapPacket.go:111-133 | bytes after a frame do not change it, and the consumed bytes alone give it |
| Decoding.DecodeIgnoresTrailing | coap/CoapPacket.go:108-191 | bytes after a message do not change what decodes, and the consumed bytes alone decode to it |
| Decoding.ReadOptions | coap/CoapPacket.go:135-190 | the cursor loop over the buffer gives the body's parse |
| Decoding.ReadOption | coap/CoapPacket.go:143-158 | the cursor updates of one iteration give one option step |
| Decoding.SetOption | coap/CoapPacket.go:160-181 | the in-place field updates give the option's effect |
| Decoding.ReadCoap | coap/CoapPacket.go:108-191 | reading a message from the stream gives the symmetric decoding |
| Decoding.DecodeUriPath | coap/CoapPacket_test.go:65-72 | 0x70 0x43 0xb4 "test" 0x01 "2" is a 2.03 for the path "/test/2" |
| Decoding.UriPathBody | coap/CoapPacket_test.go:65-72 | the body of that message parses to the path "/test/2" |
| Decoding.DecodeMaxAge | coap/CoapPacket_test.go:74-81 | an extended delta of 13 + 1 reaches Max-Age, read as 0x01F0 |
| Decoding.MaxAgeBody | coap/CoapPacket_test.go:74-81 | the body of that message parses to Max-Age 0x01F0 |
| Decoding.DecodeContentFormat | coap/CoapPacket_test.go:83-90 | 0x20 0x43 0xc1 42 carries Content-Format 42 |
| Decoding.ContentFormatBody | coap/CoapPacket_test.go:83-90 | the body of that message parses to Content-Format 42 |
| Decoding.DecodeTruncated | coap/CoapPacket.go:112-133 | the empty stream, `0x30 0x41` (a header announcing four more bytes where one follows) and `0xd0` (a header whose extension byte is missing) are errors, not packets; Codec.TruncatedEncodingFails states this for every cut-short message |
| Codec.FrameOfMessage | coap/CoapPacket.go:198-218 | the header the writer emits reads back as the message's frame, whatever follows |
| Codec.Replay | coap/CoapPacket.go:142-182 | options applied in order keep code, token and payload |
| Codec.HeaderReads | coap/CoapPacket.go:144-153 | the header bytes of an option read back as its delta and its length |
| Codec.OptionStepOnEncoded | coap/CoapPacket.go:143-181 | one loop iteration over a written option applies exactly that option and moves past it |
| Codec.ParseOneOption | coap/CoapPacket.go:142-182 | a written option is one iteration of a loop that continues after it |
| Codec.ParseAfter | coap/CoapPacket.go:142-182 | the loop steps over an option written after other bytes |
| Codec.ParseThrough | coap/CoapPacket.go:142-182 | the loop over a written option list applies every option in turn and stops after the last |
| Codec.ReplayAppend | coap/CoapPacket.go:142-182 | replaying two lists one after the other is replaying their concatenation |
| Codec.ReplayCsm | coap/CoapPacket.go:161-174 | the capability options read back as the record on a CSM, and are ignored on any other code |
| Codec.ReplayUri | coap/CoapPacket.go:175-176 | each Uri-Path option adds '/' and its segment to the path |
| Codec.ReplayContentFormat | coap/CoapPacket.go:177-178 | the Content-Format option reads back as the low byte of the format |
| Codec.ReplayMaxAge | coap/CoapPacket.go:179-180 | the Max-Age option reads back as the age |
| Codec.Expected | coap/CoapPacket.go:108-191 | what decoding a written packet gives keeps its code, token, payload and Max-Age |
| Codec.UriOptionsFit | coap/CoapPacket.go:322-326 | segments under 256 bytes give Uri-Path options that fit their lengths |
| Codec.FixedOptionsFit | coap/CoapPacket.go:308-337 | the capability, Content-Format and Max-Age options hold at most four bytes |
| Codec.OptionListFits | coap/CoapPacket.go:304-340 | a packet's options fit their lengths when its segments do |
| Codec.ReplayOptionList | coap/CoapPacket.go:142-182 | the decoder's loop, from the packet it starts with, turns a packet's option list into the expected packet |
| Codec.BodySlices | coap/CoapPacket.go:223-242 | where code, token, options and payload part lie in a written body |
| Codec.ParseStops | coap/CoapPacket.go:142-188 | after the options the loop stops at the marker, or at the end when there is no payload, and the payload reads back |
| Codec.OptionsToPayload | coap/CoapPacket.go:142-188 | from the start of written options up to a payload part, the loop replays the options and stops where the payload starts, and the payload reads back |
| Codec.ParseEncodedLayout | coap/CoapPacket.go:135-190 | a buffer of code, token, written options and payload part parses to the replayed packet with that payload |
| Codec.BodyParses | coap/CoapPacket.go:135-190 | the body of a written message parses back to the replayed packet |
| Codec.EncodeOptionsLength | coap/CoapPacket.go:342-358 | each option takes at most 258 bytes |
| Codec.OptionListWithoutPath | coap/CoapPacket.go:304-340 | without a path a packet emits at most four options |
| Codec.EncodableWithoutPath | coap/CoapPacket.go:193-245 | a packet without a path, a token under 16 bytes and a payload under 16 MiB is in the round trip's domain |
| Codec.RoundTrip | coap/CoapPacket.go:108-245 | decoding what `Write` emits, followed by anything, gives the expected packet and consumes exactly the written bytes |
| Codec.ExpectedIsIdentity | coap/CoapPacket.go:175-178 | the decoder gives a packet back unchanged exactly when its path is empty or starts with '/', its format is -1 or one byte, and it carries a capability record only as a CSM |
| Codec.RoundTripExact | coap/CoapPacket_test.go:122-146 | such a packet survives the round trip unchanged |
| Codec.TruncatedEncodingFails | coap/CoapPacket.go:112-133 | every message cut short, at any length below its own, decodes to an error and never to a packet |
| Codec.PrefixFails | coap/CoapPacket.go:112-133 | a strict prefix of a stream whose decoding consumes all of it does not decode |
| Codec.NewPacketRoundTrip | coap/CoapPacket_test.go:37-63 | a packet from `NewCoapPacket` is header, code, token and payload part, and decodes back to itself |
| Codec.Tier14RoundTrip | coap/CoapPacket_test.go:53-63 | any 65800-byte payload after a two-byte token, in Len tier 14 as in the test, survives the symmetric round trip and consumes 65807 bytes |
| Codec.Tier15RoundTrip | coap/CoapPacket_test.go:53-63 | any 200000-byte payload after a three-byte token, in Len tier 15 as in the test, survives the symmetric round trip and consumes 200009 bytes |
| Codec.MaxAgeOnlyOptions | coap/CoapPacket.go:334-337 | a packet whose only non-default option is Max-Age 100 emits exactly that option |
| Codec.MaxAgeHeaderAsWritten | coap/CoapPacket.go:349-350 | as written, Max-Age 100 alone is 0xD1 0x64, and a decoder reading that message fails |
| Codec.TruncatedOptionFails | coap/CoapPacket.go:146-158 | 0x20 0x45 0xD1 0x64 announces a delta byte that is taken from the value, and the value it announces runs past the end |
| Codec.MaxAgeOptionEncoding | coap/CoapPacket.go:342-358 | with the delta byte, Max-Age 100 is 0xD1 0x01 0x64 |
| Codec.MaxAgeOptionBytes | coap/CoapPacket.go:304-340 | a packet whose only non-default option is Max-Age 100 writes exactly those three option bytes |
| Codec.ShortMessage | coap/CoapPacket.go:198-242 | a message with no token, no payload and fewer than 13 option bytes is the length byte, the code and the options |
| Codec.MaxAgeMessage | coap/CoapPacket.go:193-245 | that packet is written as 0x30, the code, 0xD1 0x01 0x64 |
| Codec.MaxAgeHeaderCorrected | coap/CoapPacket.go:342-358 | with the corrected header that packet round-trips |
| Codec.LargePayloadEncoding | coap/CoapPacket.go:209-211 | the 260-byte payload after a one-byte token goes in tier 13 with extension byte 248 |
| Codec.NineBytesAsWritten | coap/CoapPacket.go:117-133 | the as-written decoder reads the length 13 + 248 as 5 in a uint8 and takes 7 more bytes, nine in all: the code, the token byte, the marker and four payload bytes |
| Codec.LargePayloadAsWritten | coap/CoapPacket.go:117-133 | for any 260-byte payload after a one-byte token (the tier-13 test), the as-written decoder stops after 9 bytes with a 4-byte payload, while the symmetric decoder gives the packet back whole after 265 bytes |
| Server.HandlerFunc | coap/CoapServer.go:82-86 | definition of `HandlerFunc`: the function's answer to every request; Server.HandlersIgnoreAddr proves the peer address never changes it |
| Server.HandlerGetFunc | coap/CoapServer.go:92-99 | definition of `HandlerGetFunc`: the function for GET, 4.05 for every other code; Server.GetOnlyDispatch proves what it changes against a plain handler, and Server.HandlersIgnoreAddr that the peer address does not matter |
| Server.HandlersIgnoreAddr | coap/CoapServer.go:82-99 | both handler constructors give the same answer whatever the peer address |
| Server.IsMethod | coap/CoapServer.go:159-160 | definition of the method test: a code is a method exactly when it is GET, POST, PUT or DELETE |
| Server.Dispatch | coap/CoapServer.go:153-173 | definition of `serveRequest` (a pong for a ping, the path's handler or 4.04 for a method, nothing otherwise); Server.DispatchOnlyAtPath, Server.DispatchAfterRegister and Server.PingInRun prove what the answer depends on and how it is written |
| Server.DispatchOnlyAtPath | coap/CoapServer.go:159-169 | the answer depends on the handler table only through the entry for the request's path: two tables that agree there answer alike |
| Server.DispatchAfterRegister | coap/CoapServer.go:74-90 | registering under a path changes the answer to method requests for exactly that path, and nothing else |
| Server.GetOnlyDispatch | coap/CoapServer.go:88-99 | a GET-only registration answers GET like a plain one, and every other method with 4.05 |
| Server.Written | coap/CoapServer.go:141-143 | definition of the nil check before the write: nothing for nil, otherwise the one response; Server.ResponsesAround proves each request contributes exactly this, in its place |
| Server.Responses | coap/CoapServer.go:130-150 | at most one response per request read |
| Server.ResponsesAppend | coap/CoapServer.go:130-150 | serving two runs writes the first run's responses and then the second's: nothing reordered, merged or held back |
| Server.ResponsesAround | coap/CoapServer.go:130-150 | a request in a run contributes exactly its own response, in its place |
| Server.PingInRun | coap/CoapServer.go:141-157 | every ping in a run is answered with a pong, and a code that is neither a ping nor a method writes nothing while the loop goes on |
| Server.ServerCsm | coap/CoapServer.go:108-109 | the server's first message is a 7.01 with no token, carrying its configured capabilities |
| Server.Connection | coap/CoapServer.go:101-151 | the server's CSM is always written first |
| Server.Handshake | coap/CoapServer.go:119-128 | unless the first packet read is a CSM carrying capabilities, only the server's CSM is written; otherwise at most one response per later packet |
| Server.CoapServer.constructor | coap/CoapServer.go:32-34 | no handlers, capabilities 10000 and no block-wise transfer |
| Server.CoapServer.WithCsm | coap/CoapServer.go:36-38 | no handlers and the given capabilities |
| Server.CoapServer.Handle | coap/CoapServer.go:74-76 | exactly one path gets the handler, overwriting any earlier one, and the rest is unchanged |
| Server.CoapServer.HandleFunc | coap/CoapServer.go:78-80 | exactly one path gets the function's handler, and the rest is unchanged |
| Server.CoapServer.HandleGet | coap/CoapServer.go:88-90 | exactly one path gets the GET-only handler, and the rest is unchanged |
| Server.CoapServer.HandleConnection | coap/CoapServer.go:101-151 | the loop writes the connection's outgoing sequence |
| Client.Succ | coap/CoapClient.go:140-141 | the uint32 increment: one more, or 0 after 0xFFFFFFFF |
| Client.ModSucc | coap/CoapClient.go:140-141 | incrementing a remainder modulo 2^32 is incrementing, then taking the remainder |
| Client.AdvanceValue | coap/CoapClient.go:139-144 | k draws add k to the counter modulo 2^32 |
| Client.AdvanceTwice | coap/CoapClient.go:113-124 | `Invoke`'s two draws are two increments |
| Client.TokensIncrease | coap/CoapClient.go:34-35 | from a start below 0xFFFF, the counter strictly increases for the first 2^32 - 0xFFFF draws |
| Client.NextRead | coap/CoapClient.go:131 | definition of one read: the first pending result, or end of stream; Client.ReadSplitsInbox proves a read and its rest make up the stream |
| Client.RestAfterRead | coap/CoapClient.go:131 | definition of the stream after one read; Client.ReadSplitsInbox proves the result read followed by the rest is the stream, and that an exhausted stream stays exhausted |
| Client.ReadSplitsInbox | coap/CoapClient.go:131 | a read takes the first result off a non-empty stream and the rest is left in order; an exhausted stream stays at end of stream |
| Client.Conn.constructor | coap/CoapClient.go:29 | a dialled connection has written nothing yet |
| Client.Conn.Write | coap/CoapPacket.go:193-245 | writing a packet appends it to what was sent and reads nothing |
| Client.Conn.Read | coap/CoapPacket.go:108-191 | a read takes the next pending result and sends nothing |
| Client.ClientCsm | coap/CoapClient.go:38-40 | the client's first message is a 7.01 with the drawn token and its capabilities |
| Client.HandshakeOutcome | coap/CoapClient.go:50-60 | definition of the handshake check (a CSM carrying capabilities passes, a read error is passed on, anything else is "expecting csm not received"); Session.SameHandshakeCheck proves it is the server's test too, Session.ServerCsmAccepted and Session.ServerWithoutCapabilities what it does to the server's CSM |
| Client.PingOutcome | coap/CoapClient.go:86-94 | definition of the ping check (7.03 passes, a read error is passed on, any other code is "not expected response"); Client.PongIsNotCsm proves it and the handshake check never accept the same reply |
| Client.PongIsNotCsm | coap/CoapClient.go:50-94 | a reply that passes the ping check fails the handshake check as "expecting csm not received", and a reply that passes the handshake check fails the ping check |
| Client.Reply | coap/CoapClient.go:130-136 | definition of `InvokeCoap`'s result: the next read, with a read error passed on and no check of the token; Client.CoapClient.InvokeCoap proves the method returns it for the next pending read |
| Client.Request | coap/CoapClient.go:113-117 | the request carries the method, path, format and payload given, Max-Age 60 and no capability record |
| Client.CoapClient.constructor | coap/CoapClient.go:35 | the counter starts at the seed, and no server capabilities are known yet |
| Client.CoapClient.NextToken | coap/CoapClient.go:139-144 | the counter goes up by one, wrapping as a uint32, and the token encodes the new value |
| Client.CoapClient.Ping | coap/CoapClient.go:77-95 | one 7.02 goes out with a fresh token, one reply is read, and the result is the ping check of that reply |
| Client.CoapClient.InvokeCoap | coap/CoapClient.go:122-137 | the request goes out with one freshly drawn token, and the reply is the next read |
| Client.CoapClient.Invoke | coap/CoapClient.go:113-120 | two tokens are drawn, and the request goes out with the second |
| Client.CoapClient.Get | coap/CoapClient.go:97-99 | a GET with format -1 and no payload |
| Client.CoapClient.Post | coap/CoapClient.go:101-103 | a POST with format text/plain and the payload |
| Client.CoapClient.Put | coap/CoapClient.go:105-107 | a PUT with format text/plain and the payload |
| Client.CoapClient.Delete | coap/CoapClient.go:109-111 | a DELETE with format -1 and no payload |
| Client.ConnectWithCsm | coap/CoapClient.go:28-65 | the client's CSM goes out first; it succeeds exactly when the handshake check passes, and only then records the server's capabilities |
| Client.Connect | coap/CoapClient.go:24-26 | the same, announcing capabilities 10000 and no block-wise transfer |
| Session.ClientCsmAccepted | coap/CoapServer.go:119-150 | the client's CSM crosses the wire unchanged, and the server then serves every packet read after it |
| Session.ServerCsmAccepted | coap/CoapClient.go:50-62 | a server CSM announcing capabilities crosses the wire unchanged and passes the client's check |
| Session.ServerWithoutCapabilities | coap/CoapClient.go:57-60 | a server made without capabilities writes a CSM that the client refuses |
| Session.SameHandshakeCheck | coap/CoapServer.go:119-128 | a first packet the client's check accepts makes the server serve every packet after it, and one it refuses makes the server write only its CSM |
| Resource.ServeAsWritten | example-server/Main.go:63-88 | the response keeps the request's token and is one of 2.05, 2.04, 2.02 and 5.00, with a payload only on 2.05; only PUT and DELETE change the state |
| Resource.ServeIntended | example-server/Main.go:72-76 | with a case for PUT and POST, POST stores like PUT and answers 2.04, and every other code is served as written |
| Resource.GetReads | example-server/Main.go:67-70 | GET answers 2.05 with the stored payload, format and age, and changes nothing |
| Resource.PutThenGet | example-server/Main.go:72-76 | PUT answers 2.04, and a later GET reads back what it stored |
| Resource.DeleteThenGet | example-server/Main.go:78-82 | DELETE answers 2.02, and a later GET reads an empty payload, format -1 and Max-Age 60 |
| Resource.PostAsWritten | example-server/Main.go:72-84 | as written, POST gets 5.00 and leaves the state unchanged; intended, it stores and gets 2.04 |
| Resource.FreshGetMaxAgeZero | example-server/Main.go:57-70 | a GET on a fresh resource answers Max-Age 0, whose option value makes the writer's as-written stripping panic |
| Resource.ReadWriteResource.constructor | example-server/Main.go:37 | the resource starts at the zero value: no payload, format 0, age 0 |
| Resource.ReadWriteResource.Serve | example-server/Main.go:63-88 | the new state and the response are those of the as-written handler |
| Cli.MethodNamesSpelled | coap-cli/Main.go:89-100 | the name constants spell GET, POST, PUT, DELETE, DEL and PING |
| Cli.ParseMethod | coap-cli/Main.go:89-105 | a parsed name gives one of the codes 1, 2, 3, 4 and 7.02 |
| Cli.ParseMethodNames | coap-cli/Main.go:89-100 | GET is 1, POST 2, PUT 3, DELETE and DEL 4, and PING 7.02 (226) |
| Cli.ParseMethodOnly | coap-cli/Main.go:89-105 | a name is accepted exactly when it is one of those six, so any other name, lower case included, is refused |
| Cli.ToInt16 | coap-cli/Main.go:45 | Go's `int16` conversion keeps values in range and otherwise wraps modulo 2^16 |
| Cli.ToUint32 | coap-cli/Main.go:46 | Go's `uint32` conversion keeps values in range and otherwise wraps modulo 2^32 |
| Cli.BuildRequest | coap-cli/Main.go:34-46 | definition of the request `main` builds from its flags and arguments; Cli.BuildRequestAccepts proves when it sends one, Cli.PayloadWords that the payload splits back into the words, and Cli.DefaultFlags what the default flags give |
| Cli.BuildRequestAccepts | coap-cli/Main.go:34-46 | a request is built exactly when there are at least two arguments and the first is one of the six method names |
| Cli.DefaultFlags | coap-cli/Main.go:30-31 | with the default flags the request has format -1 and age 60, so it has no options beyond its path |
| Cli.PayloadWords | coap-cli/Main.go:39 | when there is at least one word after the URL and no word holds a space, the payload splits back at its spaces into exactly those words |
| Cli.PutExample | coap-cli/Main.go:70 | `PUT coap://localhost:5683/tmp Lorem ipsum` sends a PUT for "/tmp" with the payload "Lorem ipsum" |

## Left out

- The TCP listener, `Start`, `Stop`, `Close`, `Dial`, `bufio` and the goroutine per connection are left out. They are sockets and concurrency, so the model covers one connection at a time.
- Logging (`fmt.Printf`) and `CoapPacket.String` (coap/CoapPacket.go:247-278) are left out. They are diagnostic text only.
- Write errors are not modelled: every write succeeds. The model therefore has no stop on a failed write in the server or the client, and no errors from `Write`'s buffer.
- The random start of the client's token counter (coap/CoapClient.go:34-35) is not modelled as randomness. It is the parameter `seed`, and the only thing the model requires of it is that it is below 0xFFFF.
- `ResponseCode` and `writeDynamicUint32` are not part of this model. Their definitions are not among the source files.
  - `req.ResponseCode(c)` is the value `CodeReply(req, c)`, with nothing assumed about its other fields.
  - The token encoding is the parameter `tokenBytes`.
- The lowercase `.token` assignments and the two-argument `NewCoapPacket` calls in coap/CoapServer.go and coap/CoapClient.go do not match coap/CoapPacket.go:44. The model reads them as setting the `Token` field, with an empty payload; the client's `Invoke` passes its payload.
- URL parsing (`parseUri`, `url.Parse`), flag parsing, `os.Exit` and the usage text of the command line are left out. `Cli.BuildRequest` takes the parsed flags, the arguments and the URL's path as parameters.
- The `/time`, `/my-ip`, `/rfc8323` and `/slow` handlers of the example server are left out. They depend on the clock (`time.Now`), `net.TCPAddr`, a large text constant, `time.Sleep` and `rand`.
- The handler table holds pure functions; `Resource.ReadWriteResource` is the one stateful handler, modelled on its own. A handler that keeps state while registered in the table is not captured.
- `ReadCoap` reads from an `io.Reader`. The model reads from a byte sequence and reports how many bytes it consumed. Reader errors other than end of stream are not modelled.
- Framing.Write: writes the corrected encoding. For a zero Max-Message-Size or a zero Max-Age the source panics in its stripping loop (coap/CoapPacket.go:362-365), and for a packet whose only option is Max-Age it leaves out the delta byte (349-350); the model writes an empty value and the delta byte. `Framing.EncodeAsWritten` gives the source's bytes, from `Options.OptionHeaderAsWritten` and `Bytes.MinimalBytesAsWritten`, and `Framing.EncodeAsWrittenAgrees` states where the two differ.
- Options.WriteOptions: writes the corrected option bytes, with the same two differences from the source: an empty value where a zero Max-Message-Size or Max-Age panics, and the delta byte of a lone Max-Age. `Options.WriteOptionsAsWritten` is the source's version, built on `Options.OptionHeaderAsWritten` and `Bytes.MinimalBytesAsWritten`, and `Options.WriteOptionsAsWrittenAgrees` states where they differ.
- Options.WriteOptionHeaderDynamicSize: an all-zero value is stripped to an empty one, where the source's loop indexes past the end (`Bytes.MinimalBytesAsWritten`); the header is the corrected one, which for a delta above 12 with a short value includes the delta byte the source leaves out (`Options.OptionHeaderAsWritten`).
- Options.WriteUintOption: the value 0 is written as an empty option where the source panics, and a Max-Age with no option before it gets the delta byte `0xD1 0x01 0x64` where the source writes `0xD1 0x64` (`Options.OptionHeaderAsWritten`, `Bytes.MinimalBytesAsWritten`).
- Options.WriteCsmOptions: a Max-Message-Size of 0 is written as an empty value where the source panics (`Bytes.MinimalBytesAsWritten`). Its delta is 2, so its header is the one the source writes (`Options.OptionHeaderAsWritten`).
- Decoding.Decode: this decoder is symmetric with `Write` (1, 2 or 3 extension bytes for nibbles 13, 14 and 15) and uses unbounded arithmetic. The source reads only nibble 13's extension and computes in `uint8`. `Decoding.DecodeAsWritten` models the source, and `Decoding.AsWrittenAgrees` states where the two agree.
- Framing.SizeHeader: tier 15 has three extension bytes, as `Write` emits them. Section 3.2 of RFC 8323 specifies four, so messages of 65805 + 2^24 bytes or more are outside the round trip.
- Client.Conn.Write: requires `UriSplittable`. The source panics when `strings.Split` of a non-empty path without '/' has no second element (coap/CoapPacket.go:322), and that panic happens on the caller's side, so it is a precondition rather than an error value. A zero Max-Age or Max-Message-Size is accepted here, and in the responses the server writes (for example `coap-cli -max-age 0`, or a GET on a fresh example resource, `Resource.FreshGetMaxAgeZero`), where the source's `Write` panics at coap/CoapPacket.go:362-365; `Framing.EncodeAsWritten` is where that panic is modelled.
- Client.TokensIncrease: proves strict increase only for the first 2^32 - 0xFFFF draws. After that the `uint32` counter wraps (`Client.Succ` states the wrap).
- Decoding.ApplyOption: a Content-Format value is read as its first byte (`int16(optVal[0])`), so it is always 0 to 255. An empty value is an error instead of the source's index panic, and so is an over-long uint value instead of `readUint32`'s panic.

## Findings

| source | as written | input that shows it | evidently intended | confidence | as-written member | corrected member |
|---|---|---|---|---|---|---|
| coap/CoapPacket.go:362-365 | the zero-stripping loop reads `minData[0]` without checking the length | an option value 0, e.g. Max-Age 0, which a fresh example resource answers GET with | value 0 is written as an empty option value | not executed | Bytes.MinimalBytesAsWrittenPanics | Bytes.MinimalBytes |
| coap/CoapPacket.go:349-350 | a delta above 12 with a length below 12 writes the 13 nibble but no delta byte | a packet whose only option is Max-Age 100: 0xD1 0x64, which reads back as a truncated option | 0xD1 0x01 0x64, with the delta's extension byte as in section 3.1 of RFC 7252 | not executed | Codec.MaxAgeHeaderAsWritten | Codec.MaxAgeHeaderCorrected |
| coap/CoapPacket.go:117-133 | the message length is a `uint8`, and only Len nibble 13 has an extension | the 260-byte payload test packet: 13 + 248 + 1 + 1 wraps to 7, so 9 bytes are consumed and a 4-byte payload is read | all four tiers read back, as `Write` emits them | not executed | Codec.LargePayloadAsWritten | Codec.NewPacketRoundTrip |
| example-server/Main.go:72 | the case label `coap.PUT \| coap.POST` is 3 \| 2 = 3, so only PUT takes it | a POST request: it answers 5.00 and stores nothing | a case listing PUT and POST, both storing and answering 2.04 | not executed | Resource.PostAsWritten | Resource.ServeIntended |
