/** The read/write resource of the example server (`ReadWriteResourceHandler`): a stored
    payload, Content-Format and Max-Age that GET reads, PUT overwrites and DELETE resets. */
module Resource {

  import opened Wrappers
  import opened Bytes
  import opened Packet
  import opened Options

  /** The three stored fields. */
  datatype Stored = Stored(payload: seq<Byte>, contentFormat: Int16, maxAge: Uint32)

  /** The Go zero value the resource starts from: a nil payload, Content-Format 0 and
      Max-Age 0. */
  const ZERO: Stored := Stored([], 0, 0)

  /** What DELETE leaves behind: no payload, no Content-Format, Max-Age 60. */
  const DELETED: Stored := Stored([], NO_CONTENT_FORMAT, DEFAULT_MAX_AGE)

  /** The code the `switch req.Code` of `Serve` selects, as written: the case label
      `coap.PUT | coap.POST` is the bitwise or 3 | 2, which is 3, so only PUT takes it. */
  const PUT_OR_POST: Byte := 3

  /** The state and response of one request, as written. */
  function ServeAsWritten(st: Stored, req: Packet): (r: (Stored, Packet))
    ensures r.1.token == req.token && r.1.csm == None && r.1.uriPath == []
    ensures r.1.code in {CODE_205_CONTENT, CODE_204_CHANGED, CODE_202_DELETED, CODE_500_INTERNAL_SERVER_ERROR}
    ensures r.1.code != CODE_205_CONTENT ==> r.1.payload == []
    ensures r.0 != st ==> req.code in {PUT, DELETE}
  {
    var resp := NewCoapPacket(CODE_205_CONTENT, req.token, []);
    if req.code == GET then
      (st, resp.(payload := st.payload, contentFormat := st.contentFormat, maxAge := st.maxAge))
    else if req.code == PUT_OR_POST then
      (Stored(req.payload, req.contentFormat, req.maxAge), resp.(code := CODE_204_CHANGED))
    else if req.code == DELETE then
      (DELETED, resp.(code := CODE_202_DELETED))
    else
      (st, resp.(code := CODE_500_INTERNAL_SERVER_ERROR))
  }

  /** The evidently intended handler, whose case lists PUT and POST: both store. */
  function ServeIntended(st: Stored, req: Packet): (r: (Stored, Packet))
    ensures req.code != POST ==> r == ServeAsWritten(st, req)
    ensures req.code == POST ==> r.0 == Stored(req.payload, req.contentFormat, req.maxAge)
    ensures req.code == POST ==> r.1 == NewCoapPacket(CODE_204_CHANGED, req.token, [])
  {
    if req.code == POST then ServeAsWritten(st, req.(code := PUT))
    else ServeAsWritten(st, req)
  }

  /** GET answers 2.05 with the stored fields and changes nothing. */
  lemma GetReads(st: Stored, req: Packet)
    requires req.code == GET
    ensures ServeAsWritten(st, req).0 == st
    ensures var resp := ServeAsWritten(st, req).1;
      resp.code == CODE_205_CONTENT && resp.payload == st.payload
      && resp.contentFormat == st.contentFormat && resp.maxAge == st.maxAge
  {
  }

  /** What a PUT stores, a later GET reads back, whatever the state before the PUT. */
  lemma PutThenGet(st: Stored, put: Packet, get: Packet)
    requires put.code == PUT && get.code == GET
    ensures ServeAsWritten(st, put).1.code == CODE_204_CHANGED
    ensures var after := ServeAsWritten(st, put).0;
      var resp := ServeAsWritten(after, get).1;
      resp.payload == put.payload && resp.contentFormat == put.contentFormat && resp.maxAge == put.maxAge
  {
  }

  /** After DELETE a GET reads no payload, no Content-Format and Max-Age 60: a fresh packet's
      defaults. */
  lemma DeleteThenGet(st: Stored, del: Packet, get: Packet)
    requires del.code == DELETE && get.code == GET
    ensures ServeAsWritten(st, del).1.code == CODE_202_DELETED
    ensures var resp := ServeAsWritten(ServeAsWritten(st, del).0, get).1;
      resp == NewCoapPacket(CODE_205_CONTENT, get.token, [])
  {
  }

  /** As written, POST falls to the default case: 5.00 and the state unchanged. Intended,
      it stores like PUT and answers 2.04. */
  lemma PostAsWritten(st: Stored, req: Packet)
    requires req.code == POST
    ensures ServeAsWritten(st, req).0 == st
    ensures ServeAsWritten(st, req).1.code == CODE_500_INTERNAL_SERVER_ERROR
    ensures ServeIntended(st, req).0 == Stored(req.payload, req.contentFormat, req.maxAge)
    ensures ServeIntended(st, req).1.code == CODE_204_CHANGED
  {
  }

  /** A GET on a fresh resource answers Max-Age 0, an option value the as-written writer's
      zero stripping indexes past the end of. */
  lemma FreshGetMaxAgeZero(req: Packet)
    requires req.code == GET
    ensures ServeAsWritten(ZERO, req).1.maxAge == 0
    ensures MaxAgeOptions(ServeAsWritten(ZERO, req).1) == [RawOption(OPT_MAX_AGE, UintValue(0))]
    ensures MinimalBytesAsWritten(WriteUint32(0)) == None
  {
    ZeroValueAsWritten();
  }

  /** The resource handler of the example server, registered under "/tmp". */
  class ReadWriteResource {
    var payload: seq<Byte>
    var contentFormat: Int16
    var maxAge: Uint32

    function State(): Stored
      reads this
    {
      Stored(payload, contentFormat, maxAge)
    }

    /** `&ReadWriteResourceHandler{}`: the zero value. */
    constructor ()
      ensures State() == ZERO
    {
      payload := [];
      contentFormat := 0;
      maxAge := 0;
    }

    /** `Serve`: the response starts as a 2.05 with the request's token and no payload; the
        switch then fills it or overwrites the stored fields and the response code. */
    method Serve(req: Packet) returns (resp: Packet)
      modifies this
      ensures (State(), resp) == ServeAsWritten(old(State()), req)
    {
      resp := NewCoapPacket(CODE_205_CONTENT, req.token, []);
      if req.code == GET {
        resp := resp.(payload := payload, contentFormat := contentFormat, maxAge := maxAge);
      } else if req.code == PUT_OR_POST {
        maxAge := req.maxAge;
        contentFormat := req.contentFormat;
        payload := req.payload;
        resp := resp.(code := CODE_204_CHANGED);
      } else if req.code == DELETE {
        maxAge := DEFAULT_MAX_AGE;
        contentFormat := NO_CONTENT_FORMAT;
        payload := [];
        resp := resp.(code := CODE_202_DELETED);
      } else {
        resp := resp.(code := CODE_500_INTERNAL_SERVER_ERROR);
      }
    }
  }
}
