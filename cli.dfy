/** The command line client (`coap-cli`): the method name it accepts and the request it
    assembles from its flags and arguments. */
module Cli {

  import opened Wrappers
  import opened Bytes
  import opened Text
  import opened Packet

  /** Why the tool stops before sending: fewer than two arguments (it prints its usage), or
      a method name it does not know (it exits with "Malformed method name"). */
  datatype CliError = Usage | MalformedMethod(name: seq<Byte>)

  /** The method names, as bytes. */
  const GET_NAME: seq<Byte> := [0x47, 0x45, 0x54]
  const POST_NAME: seq<Byte> := [0x50, 0x4F, 0x53, 0x54]
  const PUT_NAME: seq<Byte> := [0x50, 0x55, 0x54]
  const DELETE_NAME: seq<Byte> := [0x44, 0x45, 0x4C, 0x45, 0x54, 0x45]
  const DEL_NAME: seq<Byte> := [0x44, 0x45, 0x4C]
  const PING_NAME: seq<Byte> := [0x50, 0x49, 0x4E, 0x47]

  /** The constants spell the names. */
  lemma MethodNamesSpelled()
    ensures GET_NAME == Ascii("GET") && POST_NAME == Ascii("POST") && PUT_NAME == Ascii("PUT")
    ensures DELETE_NAME == Ascii("DELETE") && DEL_NAME == Ascii("DEL") && PING_NAME == Ascii("PING")
  {
  }

  /** `parseMethod`: the request code for a method name, None where the tool exits. */
  function ParseMethod(name: seq<Byte>): (r: Option<Byte>)
    ensures r.Some? ==> r.value in {GET, POST, PUT, DELETE, CODE_702_PING}
  {
    if name == GET_NAME then Some(GET)
    else if name == POST_NAME then Some(POST)
    else if name == PUT_NAME then Some(PUT)
    else if name == DELETE_NAME || name == DEL_NAME then Some(DELETE)
    else if name == PING_NAME then Some(CODE_702_PING)
    else None
  }

  /** Each accepted name gives its code: GET 1, POST 2, PUT 3, DELETE and DEL 4, PING 7.02. */
  lemma ParseMethodNames()
    ensures ParseMethod(GET_NAME) == Some(GET)
    ensures ParseMethod(POST_NAME) == Some(POST)
    ensures ParseMethod(PUT_NAME) == Some(PUT)
    ensures ParseMethod(DELETE_NAME) == Some(DELETE)
    ensures ParseMethod(DEL_NAME) == Some(DELETE)
    ensures ParseMethod(PING_NAME) == Some(226)
  {
  }

  /** The accepted names are exactly those six: any other name, lower case included, is
      refused. */
  lemma ParseMethodOnly(name: seq<Byte>)
    ensures ParseMethod(name).Some? <==>
      name in {GET_NAME, POST_NAME, PUT_NAME, DELETE_NAME, DEL_NAME, PING_NAME}
  {
  }

  /** Go's `int16(x)`: the low 16 bits read as two's complement. */
  function ToInt16(x: int): (r: Int16)
    ensures -32768 <= x < 32768 ==> r == x
    ensures (r - x) % 0x1_0000 == 0
  {
    (x + 32768) % 0x1_0000 - 32768
  }

  /** Go's `uint32(x)`: the low 32 bits. */
  function ToUint32(x: int): (r: Uint32)
    ensures 0 <= x < 0x1_0000_0000 ==> r == x
    ensures (r - x) % 0x1_0000_0000 == 0
  {
    x % 0x1_0000_0000
  }

  /** The default of the -cf flag: no Content-Format. */
  const DEFAULT_CF: int := -1

  /** The default of the -max-age flag. */
  const DEFAULT_MAX_AGE_FLAG: int := 60

  /** The request `main` sends for the flags `cf` and `maxAge`, the arguments after the
      flags, and `uriPath`, the path of the URL argument as `url.Parse` gives it: the method
      from the first argument, and the remaining arguments after the URL joined by single
      spaces as the payload. */
  function BuildRequest(cf: int, maxAge: int, args: seq<seq<Byte>>, uriPath: seq<Byte>): (r: Result<Packet, CliError>)
    ensures |args| < 2 ==> r == Failure(Usage)
    ensures |args| >= 2 && ParseMethod(args[0]).None? ==> r == Failure(MalformedMethod(args[0]))
    ensures r.Success? ==> |args| >= 2 && ParseMethod(args[0]) == Some(r.value.code)
    ensures r.Success? ==> r.value.token == [] && r.value.csm == None && r.value.uriPath == uriPath
    ensures r.Success? ==> r.value.payload == Join(args[2..], SPACE)
    ensures r.Success? ==> r.value.contentFormat == ToInt16(cf) && r.value.maxAge == ToUint32(maxAge)
  {
    if |args| < 2 then Failure(Usage)
    else
      var payload := Join(args[2..], SPACE);
      match ParseMethod(args[0])
      case None => Failure(MalformedMethod(args[0]))
      case Some(code) =>
        Success(NewCoapPacket(code, [], payload).(uriPath := uriPath, contentFormat := ToInt16(cf), maxAge := ToUint32(maxAge)))
  }

  /** The tool sends a request exactly when it has a method name it knows and a URL. */
  lemma BuildRequestAccepts(cf: int, maxAge: int, args: seq<seq<Byte>>, uriPath: seq<Byte>)
    ensures BuildRequest(cf, maxAge, args, uriPath).Success? <==>
      |args| >= 2 && args[0] in {GET_NAME, POST_NAME, PUT_NAME, DELETE_NAME, DEL_NAME, PING_NAME}
  {
    if |args| >= 2 {
      ParseMethodOnly(args[0]);
    }
  }

  /** With the default flags the request has no Content-Format and Max-Age 60, that is no
      options beyond its path. */
  lemma DefaultFlags(args: seq<seq<Byte>>, uriPath: seq<Byte>)
    requires BuildRequest(DEFAULT_CF, DEFAULT_MAX_AGE_FLAG, args, uriPath).Success?
    ensures var req := BuildRequest(DEFAULT_CF, DEFAULT_MAX_AGE_FLAG, args, uriPath).value;
      req.contentFormat == NO_CONTENT_FORMAT && req.maxAge == DEFAULT_MAX_AGE
      && (uriPath == [] ==> !HasOptions(req))
  {
  }

  /** The payload words come back from the payload by splitting at the spaces, provided no
      word holds a space and there is at least one. */
  lemma PayloadWords(cf: int, maxAge: int, args: seq<seq<Byte>>, uriPath: seq<Byte>)
    requires |args| >= 3 && BuildRequest(cf, maxAge, args, uriPath).Success?
    requires forall i :: 2 <= i < |args| ==> SPACE !in args[i]
    ensures Split(BuildRequest(cf, maxAge, args, uriPath).value.payload, SPACE) == args[2..]
  {
    SplitJoin(args[2..], SPACE);
  }

  /** `coap-cli PUT coap://localhost:5683/tmp Lorem ipsum` sends a PUT for "/tmp" with the
      payload "Lorem ipsum". */
  lemma PutExample()
    ensures BuildRequest(DEFAULT_CF, DEFAULT_MAX_AGE_FLAG,
              [PUT_NAME, Ascii("coap://localhost:5683/tmp"), Ascii("Lorem"), Ascii("ipsum")], Ascii("/tmp"))
            == Success(NewCoapPacket(PUT, [], Ascii("Lorem ipsum")).(uriPath := Ascii("/tmp")))
  {
    var args := [PUT_NAME, Ascii("coap://localhost:5683/tmp"), Ascii("Lorem"), Ascii("ipsum")];
    assert args[2..] == [Ascii("Lorem"), Ascii("ipsum")];
    assert Join(args[2..], SPACE) == Ascii("Lorem") + [SPACE] + Ascii("ipsum");
    assert Ascii("Lorem") + [SPACE] + Ascii("ipsum") == Ascii("Lorem ipsum");
  }
}
