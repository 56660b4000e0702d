/** The in-memory CoAP-over-TCP message (`CoapPacket`), its capability record and its codes. */
module Packet {

  import opened Wrappers
  import opened Bytes
  import opened Text

  /** Method codes (class 0). */
  const GET: Byte := 1
  const POST: Byte := 2
  const PUT: Byte := 3
  const DELETE: Byte := 4

  /** Response codes, class << 5 + detail, as in section 12.1.2 of RFC 7252. */
  const CODE_201_CREATED: Byte := 2 * 32 + 1
  const CODE_202_DELETED: Byte := 2 * 32 + 2
  const CODE_203_VALID: Byte := 2 * 32 + 3
  const CODE_204_CHANGED: Byte := 2 * 32 + 4
  const CODE_205_CONTENT: Byte := 2 * 32 + 5
  const CODE_404_NOT_FOUND: Byte := 4 * 32 + 4
  const CODE_405_METHOD_NOT_ALLOWED: Byte := 4 * 32 + 5
  const CODE_412_PRECONDITION_FAILED: Byte := 4 * 32 + 12
  const CODE_415_UNSUPPORTED_CONTENT_FORMAT: Byte := 4 * 32 + 15
  const CODE_500_INTERNAL_SERVER_ERROR: Byte := 5 * 32 + 0
  const CODE_504_GATEWAY_TIMEOUT: Byte := 5 * 32 + 4

  /** Signalling codes of section 5 of RFC 8323. */
  const CODE_701_CSM: Byte := 7 * 32 + 1
  const CODE_702_PING: Byte := 7 * 32 + 2
  const CODE_703_PONG: Byte := 7 * 32 + 3

  /** Content-Format text/plain. */
  const MT_TEXT_PLAIN: Int16 := 0
  const MT_APPLICATION_OCTET_STREAM: Int16 := 42

  /** Max-Age when the option is absent. */
  const DEFAULT_MAX_AGE: Uint32 := 60

  /** Content-Format when the option is absent. */
  const NO_CONTENT_FORMAT: Int16 := -1

  /** The capability record a CSM message carries (options 2 and 4). */
  datatype Capabilities = Capabilities(maxMessageSize: Uint32, blockWiseTransfer: bool)

  /** `CoapPacket`. A nil CSM pointer is None; Go strings are byte strings. */
  datatype Packet = Packet(
    code: Byte,
    token: seq<Byte>,
    payload: seq<Byte>,
    uriPath: seq<Byte>,
    maxAge: Uint32,
    contentFormat: Int16,
    csm: Option<Capabilities>)

  /** `NewCoapPacket`: a packet none of whose options differs from its default. */
  function NewCoapPacket(code: Byte, token: seq<Byte>, payload: seq<Byte>): (p: Packet)
    ensures p.code == code && p.token == token && p.payload == payload
    ensures !HasOptions(p)
  {
    Packet(code, token, payload, [], DEFAULT_MAX_AGE, NO_CONTENT_FORMAT, None)
  }

  /** True when the packet has something the encoder writes as an option. */
  predicate HasOptions(p: Packet)
  {
    p.csm.Some? || p.uriPath != [] || p.contentFormat >= 0 || p.maxAge != DEFAULT_MAX_AGE
  }

  /** A CSM message that carries a capability record, as both ends require of the first
      message they read. */
  predicate IsCsmMessage(p: Packet)
  {
    p.code == CODE_701_CSM && p.csm.Some?
  }

  /** The class (top three bits) and detail (bottom five bits) of a code. */
  function CodeClass(code: Byte): (c: int)
    ensures 0 <= c < 8
  {
    code / 32
  }

  function CodeDetail(code: Byte): (d: int)
    ensures 0 <= d < 32 && code == CodeClass(code) * 32 + d
  {
    code % 32
  }

  function DigitChar(d: int): char
    requires 0 <= d < 10
  {
    ('0' as int + d) as char
  }

  /** `StringCode`: the method name for codes 1 to 4, otherwise "c.dd". */
  function StringCode(code: Byte): (s: string)
    ensures 1 <= code <= 4 ==> 3 <= |s| <= 6 && forall i :: 0 <= i < |s| ==> 'A' <= s[i] <= 'Z'
    ensures !(1 <= code <= 4) ==> |s| == 4 && s[1] == '.' && forall i :: 0 <= i < 4 && i != 1 ==> '0' <= s[i] <= '9'
  {
    if code == GET then "GET"
    else if code == POST then "POST"
    else if code == PUT then "PUT"
    else if code == DELETE then "DELETE"
    else [DigitChar(CodeClass(code)), '.', DigitChar(CodeDetail(code) / 10), DigitChar(CodeDetail(code) % 10)]
  }

  /** Reads a "c.dd" text back as a code: the reference reading of StringCode's numeric form. */
  function ParseCodeText(s: string): Option<int>
  {
    if |s| == 4 && s[1] == '.' && '0' <= s[0] <= '9' && '0' <= s[2] <= '9' && '0' <= s[3] <= '9' then
      Some((s[0] as int - '0' as int) * 32 + (s[2] as int - '0' as int) * 10 + (s[3] as int - '0' as int))
    else None
  }

  /** Method codes print as their names; every other code prints as a "c.dd" text that reads
      back as that code, so StringCode tells every two codes apart. */
  lemma StringCodeReadsBack(code: Byte)
    ensures code == GET ==> StringCode(code) == "GET"
    ensures code == POST ==> StringCode(code) == "POST"
    ensures code == PUT ==> StringCode(code) == "PUT"
    ensures code == DELETE ==> StringCode(code) == "DELETE"
    ensures !(1 <= code <= 4) ==> ParseCodeText(StringCode(code)) == Some(code)
  {
    if !(1 <= code <= 4) {
      var s := StringCode(code);
      var c, d := CodeClass(code), CodeDetail(code);
      assert s[0] as int - '0' as int == c;
      assert s[2] as int - '0' as int == d / 10;
      assert s[3] as int - '0' as int == d % 10;
    }
  }

  lemma StringCodeInjective(a: Byte, b: Byte)
    requires StringCode(a) == StringCode(b)
    ensures a == b
  {
    StringCodeReadsBack(a);
    StringCodeReadsBack(b);
  }

  /** 2.05 is written "2.05". */
  lemma StringCodeContent()
    ensures StringCode(CODE_205_CONTENT) == "2.05"
  {
  }
}
