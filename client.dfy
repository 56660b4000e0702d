/** The client side of a connection (`CoapClient`): the capability handshake, the token
    counter, ping and request/response exchanges. The connection holds the packets written
    and the results of the reads still to come. */
module Client {

  import opened Wrappers
  import opened Bytes
  import opened Packet
  import opened Options
  import opened Decoding

  /** The errors of the client: a failed read, "expecting csm not received" and "not
      expected response". */
  datatype ClientError = ReadError(cause: DecodeError) | CsmNotReceived | NotExpectedResponse

  /** `uint32` increment, which wraps to 0 after 0xFFFFFFFF. */
  function Succ(t: Uint32): (r: Uint32)
    ensures t < 0xFFFF_FFFF ==> r == t + 1
    ensures t == 0xFFFF_FFFF ==> r == 0
  {
    (t + 1) % 0x1_0000_0000
  }

  /** The counter after k tokens have been drawn. */
  function Advance(t: Uint32, k: nat): Uint32
  {
    if k == 0 then t else Succ(Advance(t, k - 1))
  }

  /** Taking the remainder before the increment changes nothing modulo 2^32. */
  lemma ModSucc(x: nat)
    ensures Succ(x % 0x1_0000_0000) == (x + 1) % 0x1_0000_0000
  {
    var q, r := x / 0x1_0000_0000, x % 0x1_0000_0000;
    assert x == q * 0x1_0000_0000 + r;
    if r + 1 < 0x1_0000_0000 {
      assert x + 1 == q * 0x1_0000_0000 + (r + 1);
    } else {
      assert x + 1 == (q + 1) * 0x1_0000_0000;
    }
  }

  /** k draws add k modulo 2^32. */
  lemma {:induction false} AdvanceValue(t: Uint32, k: nat)
    ensures Advance(t, k) == (t + k) % 0x1_0000_0000
  {
    if k > 0 {
      var x: nat := t + (k - 1);
      AdvanceValue(t, k - 1);
      assert Advance(t, k) == Succ(x % 0x1_0000_0000);
      ModSucc(x);
      assert x + 1 == t + k;
    }
  }

  /** Invoke's two draws. */
  lemma {:induction false} AdvanceTwice(t: Uint32)
    ensures Advance(t, 2) == Succ(Succ(t))
  {
    assert Advance(t, 1) == Succ(t);
  }

  /** From a counter below 0xFFFF, as the client starts with, the first 2^32 - 0xFFFF
      draws give strictly increasing counters: no counter value repeats. */
  lemma {:induction false} TokensIncrease(seed: Uint32, i: nat, j: nat)
    requires seed < 0xFFFF && i < j <= 0x1_0000_0000 - 0xFFFF
    ensures Advance(seed, i) < Advance(seed, j)
  {
    AdvanceValue(seed, i);
    AdvanceValue(seed, j);
  }

  /** The result of the next read from a stream of read results: the end of the stream
      gives `io.EOF`. */
  function NextRead(inbox: seq<Result<Packet, DecodeError>>): (r: Result<Packet, DecodeError>)
    ensures inbox == [] ==> r == Failure(EndOfStream)
    ensures inbox != [] ==> r == inbox[0]
  {
    if inbox == [] then Failure(EndOfStream) else inbox[0]
  }

  function RestAfterRead(inbox: seq<Result<Packet, DecodeError>>): (rest: seq<Result<Packet, DecodeError>>)
    ensures inbox == [] ==> rest == []
    ensures inbox != [] ==> rest == inbox[1..]
  {
    if inbox == [] then [] else inbox[1..]
  }

  /** A read takes the first result off a non-empty stream and leaves the rest; once the
      stream is exhausted it stays exhausted. */
  lemma ReadSplitsInbox(inbox: seq<Result<Packet, DecodeError>>)
    ensures inbox != [] ==> [NextRead(inbox)] + RestAfterRead(inbox) == inbox
    ensures inbox == [] ==> RestAfterRead(inbox) == [] && NextRead(RestAfterRead(inbox)) == Failure(EndOfStream)
  {
  }

  /** A connection to the peer: the packets written so far and the results of the reads to
      come. */
  class Conn {
    var sent: seq<Packet>
    var inbox: seq<Result<Packet, DecodeError>>

    constructor (inbox: seq<Result<Packet, DecodeError>>)
      ensures sent == [] && this.inbox == inbox
    {
      sent := [];
      this.inbox := inbox;
    }

    /** `CoapPacket.Write` on the connection. A non-empty path without '/' makes the
        encoder panic. */
    method Write(p: Packet)
      requires UriSplittable(p.uriPath)
      modifies this
      ensures sent == old(sent) + [p] && inbox == old(inbox)
    {
      sent := sent + [p];
    }

    /** `ReadCoap` on the connection. */
    method Read() returns (r: Result<Packet, DecodeError>)
      modifies this
      ensures r == NextRead(old(inbox)) && inbox == RestAfterRead(old(inbox)) && sent == old(sent)
    {
      if inbox == [] {
        r := Failure(EndOfStream);
      } else {
        r := inbox[0];
        inbox := inbox[1..];
      }
    }
  }

  /** The capabilities `Connect` announces. */
  const DEFAULT_CAPABILITIES: Capabilities := Capabilities(10000, false)

  /** The CSM the client writes first. */
  function ClientCsm(token: seq<Byte>, csm: Option<Capabilities>): (p: Packet)
    ensures p.code == CODE_701_CSM && p.token == token && p.csm == csm && p.uriPath == []
  {
    NewCoapPacket(CODE_701_CSM, token, []).(csm := csm)
  }

  /** The handshake check of `ConnectWithCSM` on the first read. */
  function HandshakeOutcome(r: Result<Packet, DecodeError>): (e: Option<ClientError>)
    ensures e == None <==> r.Success? && IsCsmMessage(r.value)
    ensures r.Failure? ==> e == Some(ReadError(r.error))
    ensures r.Success? && !IsCsmMessage(r.value) ==> e == Some(CsmNotReceived)
  {
    if r.Failure? then Some(ReadError(r.error))
    else if !IsCsmMessage(r.value) then Some(CsmNotReceived)
    else None
  }

  /** The check `Ping` makes on its reply. */
  function PingOutcome(r: Result<Packet, DecodeError>): (e: Option<ClientError>)
    ensures e == None <==> r.Success? && r.value.code == CODE_703_PONG
    ensures r.Failure? ==> e == Some(ReadError(r.error))
    ensures r.Success? && r.value.code != CODE_703_PONG ==> e == Some(NotExpectedResponse)
  {
    if r.Failure? then Some(ReadError(r.error))
    else if r.value.code != CODE_703_PONG then Some(NotExpectedResponse)
    else None
  }

  /** The handshake and ping checks never accept the same reply: a CSM is not a pong. */
  lemma PongIsNotCsm(r: Result<Packet, DecodeError>)
    ensures PingOutcome(r) == None ==> HandshakeOutcome(r) == Some(CsmNotReceived)
    ensures HandshakeOutcome(r) == None ==> PingOutcome(r) == Some(NotExpectedResponse)
  {
  }

  /** The result of `InvokeCoap`: whatever is read next, with no check of its token. */
  function Reply(r: Result<Packet, DecodeError>): (resp: Result<Packet, ClientError>)
    ensures resp.Success? <==> r.Success?
    ensures r.Success? ==> resp.value == r.value
    ensures r.Failure? ==> resp.error == ReadError(r.error)
  {
    if r.Success? then Success(r.value) else Failure(ReadError(r.error))
  }

  /** The request `Invoke` builds before it draws a token. */
  function Request(code: Byte, uriPath: seq<Byte>, contentFormat: Int16, payload: seq<Byte>): (p: Packet)
    ensures p.code == code && p.uriPath == uriPath && p.contentFormat == contentFormat && p.payload == payload
    ensures p.maxAge == DEFAULT_MAX_AGE && p.csm == None
  {
    NewCoapPacket(code, [], payload).(uriPath := uriPath, contentFormat := contentFormat)
  }

  /** A client on an open connection: the capabilities the server announced and the token
      counter. `writeDynamicUint32`, which turns the counter into token bytes, is not part
      of this model and is given as `tokenBytes`. */
  class CoapClient {
    const conn: Conn
    const tokenBytes: Uint32 -> seq<Byte>
    var serverCsm: Option<Capabilities>
    var lastToken: Uint32

    /** The client before its handshake: no server capabilities yet. */
    constructor (conn: Conn, seed: Uint32, tokenBytes: Uint32 -> seq<Byte>)
      ensures this.conn == conn && this.tokenBytes == tokenBytes
      ensures serverCsm == None && lastToken == seed
    {
      this.conn := conn;
      this.tokenBytes := tokenBytes;
      serverCsm := None;
      lastToken := seed;
    }

    /** `nextToken`: the counter goes up by one, wrapping as a uint32, and the token is the
        encoding of the new value. */
    method NextToken() returns (token: seq<Byte>)
      modifies this
      ensures lastToken == Succ(old(lastToken)) && token == tokenBytes(lastToken)
      ensures serverCsm == old(serverCsm)
    {
      var next := (lastToken + 1) % 0x1_0000_0000;
      lastToken := next;
      token := tokenBytes(next);
    }

    /** `Ping`: a 7.02 with a fresh token, then it succeeds exactly when the next packet read
        is a 7.03. */
    method Ping() returns (err: Option<ClientError>)
      modifies this, conn
      ensures lastToken == Succ(old(lastToken)) && serverCsm == old(serverCsm)
      ensures conn.sent == old(conn.sent) + [NewCoapPacket(CODE_702_PING, tokenBytes(lastToken), [])]
      ensures conn.inbox == RestAfterRead(old(conn.inbox))
      ensures err == PingOutcome(NextRead(old(conn.inbox)))
    {
      var coapPing := NewCoapPacket(CODE_702_PING, [], []);
      var token := NextToken();
      coapPing := coapPing.(token := token);
      conn.Write(coapPing);
      var resp := conn.Read();
      err := PingOutcome(resp);
    }

    /** `InvokeCoap`: the request goes out with a freshly drawn token, and the reply is the
        next packet read. */
    method InvokeCoap(req: Packet) returns (resp: Result<Packet, ClientError>)
      requires UriSplittable(req.uriPath)
      modifies this, conn
      ensures lastToken == Succ(old(lastToken)) && serverCsm == old(serverCsm)
      ensures conn.sent == old(conn.sent) + [req.(token := tokenBytes(lastToken))]
      ensures conn.inbox == RestAfterRead(old(conn.inbox))
      ensures resp == Reply(NextRead(old(conn.inbox)))
    {
      var token := NextToken();
      var sent := req.(token := token);
      conn.Write(sent);
      var r := conn.Read();
      resp := Reply(r);
    }

    /** `Invoke`: it draws a token for the request, and `InvokeCoap` draws a second one, the
        one sent. */
    method Invoke(code: Byte, uriPath: seq<Byte>, contentFormat: Int16, payload: seq<Byte>)
      returns (resp: Result<Packet, ClientError>)
      requires UriSplittable(uriPath)
      modifies this, conn
      ensures lastToken == Succ(Succ(old(lastToken))) && serverCsm == old(serverCsm)
      ensures conn.sent == old(conn.sent) + [Request(code, uriPath, contentFormat, payload).(token := tokenBytes(lastToken))]
      ensures conn.inbox == RestAfterRead(old(conn.inbox))
      ensures resp == Reply(NextRead(old(conn.inbox)))
    {
      var req := NewCoapPacket(code, [], payload);
      var token := NextToken();
      req := req.(token := token, uriPath := uriPath, contentFormat := contentFormat);
      resp := InvokeCoap(req);
    }

    /** `Get`: no Content-Format and no payload. */
    method Get(uriPath: seq<Byte>) returns (resp: Result<Packet, ClientError>)
      requires UriSplittable(uriPath)
      modifies this, conn
      ensures lastToken == Succ(Succ(old(lastToken))) && serverCsm == old(serverCsm)
      ensures conn.sent == old(conn.sent) + [Request(GET, uriPath, NO_CONTENT_FORMAT, []).(token := tokenBytes(lastToken))]
      ensures conn.inbox == RestAfterRead(old(conn.inbox))
      ensures resp == Reply(NextRead(old(conn.inbox)))
    {
      resp := Invoke(GET, uriPath, NO_CONTENT_FORMAT, []);
    }

    /** `Post`: the payload as text/plain. */
    method Post(uriPath: seq<Byte>, payload: seq<Byte>) returns (resp: Result<Packet, ClientError>)
      requires UriSplittable(uriPath)
      modifies this, conn
      ensures lastToken == Succ(Succ(old(lastToken))) && serverCsm == old(serverCsm)
      ensures conn.sent == old(conn.sent) + [Request(POST, uriPath, MT_TEXT_PLAIN, payload).(token := tokenBytes(lastToken))]
      ensures conn.inbox == RestAfterRead(old(conn.inbox))
      ensures resp == Reply(NextRead(old(conn.inbox)))
    {
      resp := Invoke(POST, uriPath, MT_TEXT_PLAIN, payload);
    }

    /** `Put`: the payload as text/plain. */
    method Put(uriPath: seq<Byte>, payload: seq<Byte>) returns (resp: Result<Packet, ClientError>)
      requires UriSplittable(uriPath)
      modifies this, conn
      ensures lastToken == Succ(Succ(old(lastToken))) && serverCsm == old(serverCsm)
      ensures conn.sent == old(conn.sent) + [Request(PUT, uriPath, MT_TEXT_PLAIN, payload).(token := tokenBytes(lastToken))]
      ensures conn.inbox == RestAfterRead(old(conn.inbox))
      ensures resp == Reply(NextRead(old(conn.inbox)))
    {
      resp := Invoke(PUT, uriPath, MT_TEXT_PLAIN, payload);
    }

    /** `Delete`: no Content-Format and no payload. */
    method Delete(uriPath: seq<Byte>) returns (resp: Result<Packet, ClientError>)
      requires UriSplittable(uriPath)
      modifies this, conn
      ensures lastToken == Succ(Succ(old(lastToken))) && serverCsm == old(serverCsm)
      ensures conn.sent == old(conn.sent) + [Request(DELETE, uriPath, NO_CONTENT_FORMAT, []).(token := tokenBytes(lastToken))]
      ensures conn.inbox == RestAfterRead(old(conn.inbox))
      ensures resp == Reply(NextRead(old(conn.inbox)))
    {
      resp := Invoke(DELETE, uriPath, NO_CONTENT_FORMAT, []);
    }
  }

  /** `ConnectWithCSM` on a dialled connection, with the random start of the counter as
      `seed`: the client writes its CSM with the first token before reading anything, and
      it is connected, with the server's capabilities recorded, exactly when the first read
      is a CSM carrying a capability record. */
  method ConnectWithCsm(conn: Conn, csm: Option<Capabilities>, seed: Uint32, tokenBytes: Uint32 -> seq<Byte>)
    returns (r: Result<CoapClient, ClientError>)
    requires seed < 0xFFFF
    modifies conn
    ensures conn.sent == old(conn.sent) + [ClientCsm(tokenBytes(Succ(seed)), csm)]
    ensures conn.inbox == RestAfterRead(old(conn.inbox))
    ensures r.Success? <==> HandshakeOutcome(NextRead(old(conn.inbox))) == None
    ensures r.Failure? ==> Some(r.error) == HandshakeOutcome(NextRead(old(conn.inbox)))
    ensures r.Success? ==> fresh(r.value) && r.value.conn == conn && r.value.tokenBytes == tokenBytes
    ensures r.Success? ==> r.value.lastToken == Succ(seed) && r.value.serverCsm == NextRead(old(conn.inbox)).value.csm
  {
    var client := new CoapClient(conn, seed, tokenBytes);
    var coapCsm := NewCoapPacket(CODE_701_CSM, [], []);
    var token := client.NextToken();
    coapCsm := coapCsm.(token := token, csm := csm);
    conn.Write(coapCsm);
    var peerCoap := conn.Read();
    if peerCoap.Failure? {
      return Failure(ReadError(peerCoap.error));
    }
    if peerCoap.value.code != CODE_701_CSM || peerCoap.value.csm == None {
      return Failure(CsmNotReceived);
    }
    client.serverCsm := peerCoap.value.csm;
    r := Success(client);
  }

  /** `Connect`: `ConnectWithCSM` with a maximum message size of 10000 and no block-wise
      transfer. */
  method Connect(conn: Conn, seed: Uint32, tokenBytes: Uint32 -> seq<Byte>)
    returns (r: Result<CoapClient, ClientError>)
    requires seed < 0xFFFF
    modifies conn
    ensures conn.sent == old(conn.sent) + [ClientCsm(tokenBytes(Succ(seed)), Some(DEFAULT_CAPABILITIES))]
    ensures conn.inbox == RestAfterRead(old(conn.inbox))
    ensures r.Success? <==> HandshakeOutcome(NextRead(old(conn.inbox))) == None
    ensures r.Failure? ==> Some(r.error) == HandshakeOutcome(NextRead(old(conn.inbox)))
    ensures r.Success? ==> fresh(r.value) && r.value.conn == conn && r.value.tokenBytes == tokenBytes
    ensures r.Success? ==> r.value.lastToken == Succ(seed) && r.value.serverCsm == NextRead(old(conn.inbox)).value.csm
  {
    r := ConnectWithCsm(conn, Some(DEFAULT_CAPABILITIES), seed, tokenBytes);
  }
}
