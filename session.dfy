/** The two ends of a connection together: each side's CSM passes the other side's
    handshake check after going through the encoder and the decoder. */
module Session {

  import opened Wrappers
  import opened Bytes
  import opened Packet
  import opened Decoding
  import opened Framing
  import opened Codec
  import Server
  import Client

  /** The client's CSM, carrying a capability record, crosses the wire unchanged, and the
      server then serves every packet read after it. */
  lemma {:induction false} ClientCsmAccepted(token: seq<Byte>, caps: Capabilities, handlers: map<seq<Byte>, Server.Handler>,
                          csm: Option<Capabilities>, addr: Server.Addr, reqs: seq<Packet>)
    requires |token| < 16
    ensures var p := Client.ClientCsm(token, Some(caps));
      Decode(Encode(p)) == Success(Decoded(p, |Encode(p)|))
    ensures Server.Connection(handlers, csm, addr, [Client.ClientCsm(token, Some(caps))] + reqs)
            == [Server.Sent(Server.ServerCsm(csm))] + Server.Responses(handlers, addr, reqs)
  {
    var p := Client.ClientCsm(token, Some(caps));
    EncodableWithoutPath(p);
    RoundTripExact(p);
    assert ([p] + reqs)[1..] == reqs;
  }

  /** The server's CSM, when it announces capabilities, crosses the wire unchanged and
      passes the client's check, which records those capabilities. */
  lemma ServerCsmAccepted(caps: Capabilities)
    ensures var p := Server.ServerCsm(Some(caps));
      Decode(Encode(p)) == Success(Decoded(p, |Encode(p)|))
    ensures Client.HandshakeOutcome(Success(Server.ServerCsm(Some(caps)))) == None
  {
    var p := Server.ServerCsm(Some(caps));
    EncodableWithoutPath(p);
    RoundTripExact(p);
  }

  /** A server made with no capabilities writes a CSM without a record, which the client
      refuses. */
  lemma ServerWithoutCapabilities()
    ensures Client.HandshakeOutcome(Success(Server.ServerCsm(None))) == Some(Client.CsmNotReceived)
  {
  }

  /** The client's handshake check and the server's are the same test: a first packet the
      client would accept makes the server serve what follows, and one it would refuse makes
      the server write its CSM and stop. */
  lemma SameHandshakeCheck(p: Packet, handlers: map<seq<Byte>, Server.Handler>, csm: Option<Capabilities>,
                           addr: Server.Addr, reqs: seq<Packet>)
    ensures Client.HandshakeOutcome(Success(p)) == None ==>
      Server.Connection(handlers, csm, addr, [p] + reqs) == [Server.Sent(Server.ServerCsm(csm))] + Server.Responses(handlers, addr, reqs)
    ensures Client.HandshakeOutcome(Success(p)) != None ==>
      Server.Connection(handlers, csm, addr, [p] + reqs) == [Server.Sent(Server.ServerCsm(csm))]
  {
    assert ([p] + reqs)[0] == p && ([p] + reqs)[1..] == reqs;
  }
}
