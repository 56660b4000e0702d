/** The server side of a connection (`CoapServer`): the handler table, the dispatch of one
    request, and the sequential read/serve/write loop after the capability handshake. A
    connection is the sequence of packets the server reads, ending where a read fails, and
    the sequence it writes. */
module Server {

  import opened Wrappers
  import opened Bytes
  import opened Packet

  /** The peer address, which only handlers see. */
  type Addr = seq<Byte>

  /** What the server writes: a packet built by a handler, or `req.ResponseCode(code)`, a
      packet with that code made from the request. How `ResponseCode` fills the other fields
      is not part of this model. */
  datatype Outgoing = Sent(packet: Packet) | CodeReply(request: Packet, code: Byte)

  /** The `Handler` interface: a nil response is None. */
  datatype Handler = Handler(serve: (Addr, Packet) -> Option<Outgoing>)

  /** `HandlerFunc`: a handler function that ignores the peer address. */
  function HandlerFunc(f: Packet -> Option<Outgoing>): (h: Handler)
    ensures forall addr: Addr, req: Packet :: h.serve(addr, req) == f(req)
  {
    Handler((addr: Addr, req: Packet) => f(req))
  }

  /** `HandlerGetFunc`: the function answers GET requests, every other method gets 4.05. */
  function HandlerGetFunc(f: Packet -> Option<Outgoing>): (h: Handler)
    ensures forall addr: Addr, req: Packet :: req.code == GET ==> h.serve(addr, req) == f(req)
    ensures forall addr: Addr, req: Packet ::
      req.code != GET ==> h.serve(addr, req) == Some(CodeReply(req, CODE_405_METHOD_NOT_ALLOWED))
  {
    Handler((addr: Addr, req: Packet) =>
      if req.code == GET then f(req) else Some(CodeReply(req, CODE_405_METHOD_NOT_ALLOWED)))
  }

  /** Neither handler constructor lets the peer address change the answer. */
  lemma HandlersIgnoreAddr(f: Packet -> Option<Outgoing>, addr: Addr, addr': Addr, req: Packet)
    ensures HandlerFunc(f).serve(addr, req) == HandlerFunc(f).serve(addr', req)
    ensures HandlerGetFunc(f).serve(addr, req) == HandlerGetFunc(f).serve(addr', req)
  {
  }

  /** A request code: 0.01 to 0.04. */
  predicate IsMethod(code: Byte): (b: bool)
    ensures b <==> code in {GET, POST, PUT, DELETE}
  {
    0 < code <= 4
  }

  /** `serveRequest`: a ping is answered with a pong, a method with the handler registered
      under exactly the request's path or with 4.04, and anything else with nothing. */
  function Dispatch(handlers: map<seq<Byte>, Handler>, addr: Addr, req: Packet): (r: Option<Outgoing>)
    ensures req.code == CODE_702_PING ==> r == Some(CodeReply(req, CODE_703_PONG))
    ensures IsMethod(req.code) && req.uriPath !in handlers ==> r == Some(CodeReply(req, CODE_404_NOT_FOUND))
    ensures IsMethod(req.code) && req.uriPath in handlers ==> r == handlers[req.uriPath].serve(addr, req)
    ensures req.code != CODE_702_PING && !IsMethod(req.code) ==> r == None
  {
    if req.code == CODE_702_PING then Some(CodeReply(req, CODE_703_PONG))
    else if IsMethod(req.code) then
      if req.uriPath in handlers then handlers[req.uriPath].serve(addr, req)
      else Some(CodeReply(req, CODE_404_NOT_FOUND))
    else None
  }

  /** Registering a handler under a path changes the answer to method requests for exactly
      that path, and to nothing else. */
  lemma DispatchAfterRegister(handlers: map<seq<Byte>, Handler>, path: seq<Byte>, h: Handler, addr: Addr, req: Packet)
    ensures IsMethod(req.code) && req.uriPath == path ==> Dispatch(handlers[path := h], addr, req) == h.serve(addr, req)
    ensures !(IsMethod(req.code) && req.uriPath == path) ==> Dispatch(handlers[path := h], addr, req) == Dispatch(handlers, addr, req)
  {
  }

  /** The answer depends on the handler table only through the entry for the request's
      path: two tables that agree there answer alike. */
  lemma DispatchOnlyAtPath(handlers: map<seq<Byte>, Handler>, handlers': map<seq<Byte>, Handler>, addr: Addr, req: Packet)
    requires (req.uriPath in handlers <==> req.uriPath in handlers')
    requires req.uriPath in handlers ==> handlers[req.uriPath] == handlers'[req.uriPath]
    ensures Dispatch(handlers, addr, req) == Dispatch(handlers', addr, req)
  {
  }

  /** A GET-only handler and a plain one registered under the same path answer GET alike;
      the GET-only one refuses every other method with 4.05. */
  lemma GetOnlyDispatch(handlers: map<seq<Byte>, Handler>, path: seq<Byte>, f: Packet -> Option<Outgoing>, addr: Addr, req: Packet)
    requires req.uriPath == path && IsMethod(req.code)
    ensures req.code == GET ==>
      Dispatch(handlers[path := HandlerGetFunc(f)], addr, req) == Dispatch(handlers[path := HandlerFunc(f)], addr, req)
    ensures req.code != GET ==>
      Dispatch(handlers[path := HandlerGetFunc(f)], addr, req) == Some(CodeReply(req, CODE_405_METHOD_NOT_ALLOWED))
  {
  }

  /** The written form of an optional response: one packet or none. */
  function Written(r: Option<Outgoing>): (out: seq<Outgoing>)
    ensures |out| <= 1 && (r.None? <==> out == []) && (r.Some? ==> out == [r.value])
  {
    if r.Some? then [r.value] else []
  }

  /** The responses to a run of requests, served one at a time in arrival order. */
  function Responses(handlers: map<seq<Byte>, Handler>, addr: Addr, reqs: seq<Packet>): (out: seq<Outgoing>)
    ensures |out| <= |reqs|
  {
    if reqs == [] then []
    else Responses(handlers, addr, reqs[..|reqs| - 1]) + Written(Dispatch(handlers, addr, reqs[|reqs| - 1]))
  }

  /** Serving two runs of requests one after the other writes the responses of the first
      and then those of the second: nothing is reordered, merged or held back. */
  lemma {:induction false} ResponsesAppend(handlers: map<seq<Byte>, Handler>, addr: Addr, a: seq<Packet>, b: seq<Packet>)
    ensures Responses(handlers, addr, a + b) == Responses(handlers, addr, a) + Responses(handlers, addr, b)
    decreases |b|
  {
    if b == [] {
      assert a + b == a;
    } else {
      var init := b[..|b| - 1];
      assert (a + b)[..|a + b| - 1] == a + init;
      assert (a + b)[|a + b| - 1] == b[|b| - 1];
      ResponsesAppend(handlers, addr, a, init);
    }
  }

  /** A request in the middle of a run contributes exactly its own response, in its place;
      one that gets no response (a code that is neither a ping nor a method) is skipped and
      the loop goes on reading. */
  lemma {:induction false} ResponsesAround(handlers: map<seq<Byte>, Handler>, addr: Addr, a: seq<Packet>, req: Packet, b: seq<Packet>)
    ensures Responses(handlers, addr, a + [req] + b)
            == Responses(handlers, addr, a) + Written(Dispatch(handlers, addr, req)) + Responses(handlers, addr, b)
  {
    ResponsesAppend(handlers, addr, a + [req], b);
    ResponsesAppend(handlers, addr, a, [req]);
    assert [req][..0] == [];
  }

  /** Every ping in a run is answered with a pong; a request that gets no response writes
      nothing. */
  lemma {:induction false} PingInRun(handlers: map<seq<Byte>, Handler>, addr: Addr, a: seq<Packet>, req: Packet, b: seq<Packet>)
    ensures req.code == CODE_702_PING ==>
      Responses(handlers, addr, a + [req] + b)
      == Responses(handlers, addr, a) + [CodeReply(req, CODE_703_PONG)] + Responses(handlers, addr, b)
    ensures req.code != CODE_702_PING && !IsMethod(req.code) ==>
      Responses(handlers, addr, a + [req] + b) == Responses(handlers, addr, a) + Responses(handlers, addr, b)
  {
    ResponsesAround(handlers, addr, a, req, b);
  }

  /** The CSM the server writes first: code 7.01, no token, its own capabilities. */
  function ServerCsm(csm: Option<Capabilities>): (p: Packet)
    ensures p.code == CODE_701_CSM && p.token == [] && p.csm == csm
  {
    NewCoapPacket(CODE_701_CSM, [], []).(csm := csm)
  }

  /** `handleConnection`: the server's CSM, then, only if the first packet read is a CSM
      carrying capabilities, the responses to every packet read after it. */
  function Connection(handlers: map<seq<Byte>, Handler>, csm: Option<Capabilities>, addr: Addr, inbox: seq<Packet>): (out: seq<Outgoing>)
    ensures |out| >= 1 && out[0] == Sent(ServerCsm(csm))
  {
    [Sent(ServerCsm(csm))]
    + (if inbox != [] && IsCsmMessage(inbox[0]) then Responses(handlers, addr, inbox[1..]) else [])
  }

  /** Without a capability handshake nothing is dispatched: the server writes its CSM and
      stops. With it, the server writes one response at most per packet read after it. */
  lemma Handshake(handlers: map<seq<Byte>, Handler>, csm: Option<Capabilities>, addr: Addr, inbox: seq<Packet>)
    ensures !(inbox != [] && IsCsmMessage(inbox[0])) ==> Connection(handlers, csm, addr, inbox) == [Sent(ServerCsm(csm))]
    ensures |Connection(handlers, csm, addr, inbox)| <= |inbox| + (if inbox == [] then 1 else 0)
  {
  }

  /** The server of a listener: its handlers and the capabilities it announces. */
  class CoapServer {
    var handlers: map<seq<Byte>, Handler>
    var csm: Option<Capabilities>

    /** `NewCoapServer`: no handlers, a maximum message size of 10000 and no block-wise
        transfer. */
    constructor ()
      ensures handlers == map[] && csm == Some(Capabilities(10000, false))
    {
      handlers := map[];
      csm := Some(Capabilities(10000, false));
    }

    /** `NewCoapServerWithCSM`. */
    constructor WithCsm(csm: Option<Capabilities>)
      ensures handlers == map[] && this.csm == csm
    {
      handlers := map[];
      this.csm := csm;
    }

    /** `Handle`: the handler answers for exactly this path, replacing any earlier one. */
    method Handle(uriPath: seq<Byte>, handler: Handler)
      modifies this
      ensures handlers == old(handlers)[uriPath := handler] && csm == old(csm)
    {
      handlers := handlers[uriPath := handler];
    }

    /** `HandleFunc`. */
    method HandleFunc(uriPath: seq<Byte>, f: Packet -> Option<Outgoing>)
      modifies this
      ensures handlers == old(handlers)[uriPath := HandlerFunc(f)] && csm == old(csm)
    {
      handlers := handlers[uriPath := HandlerFunc(f)];
    }

    /** `HandleGet`. */
    method HandleGet(uriPath: seq<Byte>, f: Packet -> Option<Outgoing>)
      modifies this
      ensures handlers == old(handlers)[uriPath := HandlerGetFunc(f)] && csm == old(csm)
    {
      handlers := handlers[uriPath := HandlerGetFunc(f)];
    }

    /** The loop of `handleConnection` on the packets read from one peer. */
    method HandleConnection(addr: Addr, inbox: seq<Packet>) returns (out: seq<Outgoing>)
      ensures out == Connection(handlers, csm, addr, inbox)
    {
      out := [Sent(ServerCsm(csm))];
      if |inbox| == 0 {
        return;
      }
      var clientCsm := inbox[0];
      if clientCsm.code != CODE_701_CSM || clientCsm.csm == None {
        return;
      }
      var i := 1;
      while i < |inbox|
        invariant 1 <= i <= |inbox|
        invariant out == [Sent(ServerCsm(csm))] + Responses(handlers, addr, inbox[1..i])
      {
        var resp := Dispatch(handlers, addr, inbox[i]);
        assert inbox[1..i + 1][..i - 1] == inbox[1..i];
        if resp.Some? {
          out := out + [resp.value];
        }
        i := i + 1;
      }
      assert inbox[1..i] == inbox[1..];
    }
  }
}
