/** Requests, responses and the transactions that bind them; objects that the layers change in place. */
module Messages {

  import opened Wrappers
  import opened Bytes
  import opened BlockOption
  import opened OptionWire

  datatype Endpoint = Endpoint(host: string, port: nat)

  type Token = Option<bytes>

  datatype MessageType = CON | NON | ACK | RST

  /** str_append_hash of (host, port, token): the hash is taken to be injective. */
  datatype Key = Key(host: string, port: nat, token: Token)

  function KeyOf(e: Endpoint, token: Token): Key { Key(e.host, e.port, token) }

  const CONTINUE := 95
  const REQUEST_ENTITY_INCOMPLETE := 136
  const UNSUPPORTED_CONTENT_FORMAT := 143
  const MAX_PAYLOAD := 1024

  /** The contents of a message; an absent content type reads as 0. The other options stand in order of number. */
  datatype Msg = Msg(
    source: Endpoint, destination: Endpoint, token: Token, mid: Option<nat>,
    typ: Option<MessageType>, code: Option<nat>,
    block1: Option<Block>, block2: Option<Block>, size1: Option<nat>, size2: Option<nat>,
    contentType: nat, payload: Option<bytes>, others: seq<StoredOption>)

  /** The octets of a payload; a missing payload counts as an empty one. */
  function Text(payload: Option<bytes>): bytes {
    if payload.None? then [] else payload.value
  }

  /** Response.init_from_request for a unicast request. */
  function Reply(request: Msg): Msg {
    Msg(request.destination, request.source, request.token, None, None, None, None, None, None, None, 0, None, [])
  }

  /** Two messages share a key exactly when host, port and token are the same. */
  lemma KeysAreTuples(e: Endpoint, token: Token, e': Endpoint, token': Token)
    ensures KeyOf(e, token) == KeyOf(e', token') <==> e == e' && token == token'
  {
  }

  class Request {
    var source: Endpoint
    var destination: Endpoint
    var token: Token
    var mid: Option<nat>
    var typ: Option<MessageType>
    var code: Option<nat>
    var block1: Option<Block>
    var block2: Option<Block>
    var size1: Option<nat>
    var size2: Option<nat>
    var contentType: nat
    var payload: Option<bytes>
    var others: seq<StoredOption>
    var acknowledged: bool
    var rejected: bool
    var timeouted: bool
    var cancelled: bool
    var duplicated: bool
    var timestamp: real

    function Contents(): Msg
      reads this
    {
      Msg(source, destination, token, mid, typ, code, block1, block2, size1, size2, contentType, payload, others)
    }

    method SetAcknowledged(value: bool)
      modifies `acknowledged, `timeouted, `rejected, `cancelled
      ensures acknowledged == value
      ensures if value then !timeouted && !rejected && !cancelled
              else unchanged(`timeouted) && unchanged(`rejected) && unchanged(`cancelled)
    {
      acknowledged := value;
      if value {
        timeouted, rejected, cancelled := false, false, false;
      }
    }

    method SetRejected(value: bool)
      modifies `acknowledged, `timeouted, `rejected, `cancelled
      ensures rejected == value
      ensures if value then !timeouted && !acknowledged && cancelled
              else unchanged(`timeouted) && unchanged(`acknowledged) && unchanged(`cancelled)
    {
      rejected := value;
      if value {
        timeouted, acknowledged, cancelled := false, false, true;
      }
    }

    method SetTimeouted(value: bool)
      modifies `acknowledged, `timeouted, `rejected, `cancelled
      ensures timeouted == value
      ensures if value then !acknowledged && !rejected && cancelled
              else unchanged(`acknowledged) && unchanged(`rejected) && unchanged(`cancelled)
    {
      timeouted := value;
      if value {
        acknowledged, rejected, cancelled := false, false, true;
      }
    }

    /** Set the contents of the message. */
    method Assign(m: Msg)
      modifies `source, `destination, `token, `mid, `typ, `code, `block1, `block2, `size1, `size2, `contentType,
        `payload
      modifies `others
      ensures Contents() == m
    {
      source, destination, token, mid, typ, code := m.source, m.destination, m.token, m.mid, m.typ, m.code;
      block1, block2, size1, size2 := m.block1, m.block2, m.size1, m.size2;
      contentType, payload, others := m.contentType, m.payload, m.others;
    }

    constructor (m: Msg)
      ensures Contents() == m
      ensures !acknowledged && !rejected && !timeouted && !cancelled && !duplicated && timestamp == 0.0
    {
      source, destination, token, mid, typ, code := m.source, m.destination, m.token, m.mid, m.typ, m.code;
      block1, block2, size1, size2 := m.block1, m.block2, m.size1, m.size2;
      contentType, payload, others := m.contentType, m.payload, m.others;
      acknowledged, rejected, timeouted, cancelled, duplicated := false, false, false, false, false;
      timestamp := 0.0;
    }
  }

  class Response {
    var source: Endpoint
    var destination: Endpoint
    var token: Token
    var mid: Option<nat>
    var typ: Option<MessageType>
    var code: Option<nat>
    var block1: Option<Block>
    var block2: Option<Block>
    var size1: Option<nat>
    var size2: Option<nat>
    var contentType: nat
    var payload: Option<bytes>
    var others: seq<StoredOption>
    var acknowledged: bool

    function Contents(): Msg
      reads this
    {
      Msg(source, destination, token, mid, typ, code, block1, block2, size1, size2, contentType, payload, others)
    }

    /** Set the contents of the message. */
    method Assign(m: Msg)
      modifies `source, `destination, `token, `mid, `typ, `code, `block1, `block2, `size1, `size2, `contentType,
        `payload
      modifies `others
      ensures Contents() == m
    {
      source, destination, token, mid, typ, code := m.source, m.destination, m.token, m.mid, m.typ, m.code;
      block1, block2, size1, size2 := m.block1, m.block2, m.size1, m.size2;
      contentType, payload, others := m.contentType, m.payload, m.others;
    }

    constructor (m: Msg)
      ensures Contents() == m && !acknowledged
    {
      source, destination, token, mid, typ, code := m.source, m.destination, m.token, m.mid, m.typ, m.code;
      block1, block2, size1, size2 := m.block1, m.block2, m.size1, m.size2;
      contentType, payload, others := m.contentType, m.payload, m.others;
      acknowledged := false;
    }
  }

  /** What the block layer sees of a transaction. */
  datatype Exchange = Exchange(request: Msg, response: Option<Msg>, completed: bool, blockTransfer: bool)

  class Transaction {
    var request: Request
    var response: Response?
    /** A resource has been found for the request. */
    var resource: bool
    var timestamp: real
    var completed: bool
    var blockTransfer: bool

    constructor (request: Request, timestamp: real)
      ensures this.request == request && response == null && !resource
      ensures this.timestamp == timestamp && !completed && !blockTransfer
    {
      this.request, response, resource := request, null, false;
      this.timestamp, completed, blockTransfer := timestamp, false, false;
    }

    function View(): Exchange
      reads this, request, response
    {
      var shown := if response == null then None else Some(response.Contents());
      Exchange(request.Contents(), shown, completed, blockTransfer)
    }
  }
}
