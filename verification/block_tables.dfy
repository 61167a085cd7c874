/** The block layer as a state machine over its four tables. */
module BlockTables {

  import opened Wrappers
  import opened Bytes
  import opened BlockOption
  import opened Messages

  /** What an item holds as its payload: nothing, the text "" that send_request starts with, or octets. */
  datatype Held = Nothing | EmptyText | Octets(octets: bytes)

  function Hold(payload: Option<bytes>): Held {
    if payload.None? then Nothing else Octets(payload.value)
  }

  function OctetsOf(h: Held): bytes {
    if h.Octets? then h.octets else []
  }

  /** The payload of a message that is given what an incoming table holds. */
  function Release(h: Held): Option<bytes> {
    if h.Nothing? then None else Some(OctetsOf(h))
  }

  /** held + payload; None stands for the exception, since only octets can be joined with octets. */
  function Join(h: Held, payload: Option<bytes>): Option<bytes> {
    if h.Octets? && payload.Some? then Some(h.octets + payload.value) else None
  }

  datatype Item = Item(byte: nat, num: nat, more: bool, size: nat, payload: Held, contentType: Option<nat>)

  /** How a call ends: with the transaction, with None in its place, or with an exception. */
  datatype Exit = Returned | ReturnedNone | Thrown

  /** Items of outgoing requests (Block1, Block2) and of incoming ones. */
  datatype Tables = Tables(
    sent1: map<Key, Item>, sent2: map<Key, Item>, received1: map<Key, Item>, received2: map<Key, Item>)

  const EmptyTables := Tables(map[], map[], map[], map[])

  /** s[from..until] with the bounds clipped to the sequence. */
  function Slice(s: bytes, from: nat, until: nat): bytes {
    if from >= |s| || until <= from then []
    else if until >= |s| then s[from..]
    else s[from..until]
  }

  /** The M bit of a block that the sender cuts: false only if it reaches beyond the payload. */
  function MoreAfter(num: nat, size: nat, length: nat): bool {
    !(num * size + size > length)
  }

  // ------------------------------------------------------------ receiving requests

  function Incomplete(x: Exchange): Exchange {
    x.(blockTransfer := true, response := Some(Reply(x.request).(code := Some(REQUEST_ENTITY_INCOMPLETE))))
  }

  function ReceiveBlock2Request(t: Tables, key: Key, b: Block, x: Exchange): (Tables, Exchange) {
    var y := x.(request := x.request.(block2 := None));
    if key in t.received2 then
      var item := t.received2[key];
      (t.(received2 := t.received2[key := item.(num := b.num, size := b.size, more := b.more)]),
       y.(completed := x.completed || OctetsOf(item.payload) != []))
    else
      (t.(received2 := t.received2[key := Item(b.num * b.size, b.num, b.more, b.size, Nothing, None)]), y)
  }

  /** The Block1 request continues what the table holds for its key. */
  predicate InSequence(t: Tables, key: Key, b: Block, contentType: nat) {
    if key in t.received1 then
      b.num == t.received1[key].num && Some(contentType) == t.received1[key].contentType
    else
      b.num == 0
  }

  /** The payload received with this request; None stands for the exception or for no payload at all. */
  function Gathered(t: Tables, key: Key, payload: Option<bytes>): Option<bytes> {
    if key in t.received1 then Join(t.received1[key].payload, payload) else payload
  }

  function ReceiveBlock1Request(t: Tables, key: Key, b: Block, x: Exchange): (Tables, Exchange, Exit) {
    if !InSequence(t, key, b, x.request.contentType) then (t, Incomplete(x), Returned)
    else
      var payload := Gathered(t, key, x.request.payload);
      var ct := if key in t.received1 then t.received1[key].contentType else Some(x.request.contentType);
      if key in t.received1 && payload.None? then (t, x, Thrown)
      else if !b.more then
        (t.(received1 := t.received1 - {key}),
         x.(request := x.request.(payload := payload, block1 := None), blockTransfer := false), Returned)
      else
        (t.(received1 := t.received1[key := Item(b.size, b.num + 1, b.more, b.size, Hold(payload), ct)]),
         x.(blockTransfer := true, response := Some(Reply(x.request).(code := Some(CONTINUE), block1 := Some(b)))),
             Returned)
  }

  function ReceiveRequest(t: Tables, x: Exchange): (Tables, Exchange, Exit) {
    var key := KeyOf(x.request.source, x.request.token);
    if x.request.block2.Some? then
      var (t', x') := ReceiveBlock2Request(t, key, x.request.block2.value, x);
      (t', x', Returned)
    else if x.request.block1.Some? then ReceiveBlock1Request(t, key, x.request.block1.value, x)
    else (t, x, Returned)
  }

  // ----------------------------------------------------------- receiving responses

  function Error(x: Exchange, code: nat): Exchange {
    x.(blockTransfer := true, response := Some(Reply(x.request).(typ := Some(RST), code := Some(code))))
  }

  /** Cut the next block of an upload into the request. */
  function CutUpload(item: Item, request: Msg): (Item, Msg, Exit) {
    if !item.payload.Octets? then (item, request.(mid := None, block1 := None), Thrown)
    else
      var payload := item.payload.octets;
      var byte := item.byte + item.size;
      var next := item.(num := item.num + 1, byte := byte, more := !(|payload| <= byte));
      (next,
       request.(mid := None, payload := Some(Slice(payload, item.byte, byte)),
                block1 := Some(Block(next.num, next.more, next.size))),
       Returned)
  }

  /** The continuation of a Block1 upload after a response that carries Block1. */
  function ReceiveBlock1Response(t: Tables, key: Key, b: Block, x: Exchange): (Tables, Exchange, Exit)
    requires key in t.sent1
  {
    var item := t.sent1[key];
    if !item.more then (t, x.(blockTransfer := false, request := x.request.(block1 := None)), Returned)
    else if b.num != item.num then (t, x.(blockTransfer := true), ReturnedNone)
    else
      var size := if b.size < item.size then b.size else item.size;
      var (next, request, exit) := CutUpload(item.(size := size), x.request);
      (t.(sent1 := t.sent1[key := next]), x.(blockTransfer := true, request := request), exit)
  }

  /** The error code for a block that does not continue the item's download. */
  function Refusal(item: Item, b: Block, contentType: nat): Option<nat> {
    if b.num != item.num then Some(REQUEST_ENTITY_INCOMPLETE)
    else if item.contentType.Some? && item.contentType != Some(contentType) then Some(UNSUPPORTED_CONTENT_FORMAT)
    else None
  }

  /** Store a block of a response; the fields are updated before the payloads are joined. */
  function StoreBlock(t: Tables, key: Key, b: Block, response: Msg): (Tables, Option<nat>, Exit) {
    if key !in t.sent2 then
      (t.(sent2 := t.sent2[key :=
         Item(b.size, b.num + 1, b.more, b.size, Hold(response.payload), Some(response.contentType))]),
       None, Returned)
    else
      var item := t.sent2[key];
      var refusal := Refusal(item, b, response.contentType);
      if refusal.Some? then (t, refusal, Returned)
      else
        var payload := Join(item.payload, response.payload);
        var held := if payload.None? then item.payload else Octets(payload.value);
        (t.(sent2 := t.sent2[key :=
           Item(item.byte + b.size, b.num + 1, b.more, b.size, held, Some(response.contentType))]),
         None, if payload.None? then Thrown else Returned)
  }

  /** A block of a response that is not the last one. */
  function ReceiveBlock(t: Tables, key: Key, b: Block, x: Exchange, response: Msg): (Tables, Exchange, Exit) {
    var (t', refusal, exit) := StoreBlock(t, key, b, response);
    if refusal.Some? then (t', Error(x, refusal.value), exit)
    else
      var asked := if exit == Thrown then x.request
                   else x.request.(mid := None, block2 := Some(Block(b.num + 1, false, b.size)));
      (t', x.(blockTransfer := true, request := asked), exit)
  }

  /** What is stored for a key joined with a last block, if anything is; Mismatched is another content type. */
  datatype Closing = Whole | Joined(payload: bytes) | Mismatched | NotJoined

  function CloseDownload(t: Tables, key: Key, response: Msg): (Tables, Closing) {
    if key !in t.sent2 then (t, Whole)
    else if t.sent2[key].contentType != Some(response.contentType) then (t, Mismatched)
    else
      var payload := Join(t.sent2[key].payload, response.payload);
      if payload.None? then (t, NotJoined) else (t.(sent2 := t.sent2 - {key}), Joined(payload.value))
  }

  /** The last block of a response, or a response in one block. */
  function ReceiveLastBlock(t: Tables, key: Key, x: Exchange, response: Msg): (Tables, Exchange, Exit) {
    var (t', closing) := CloseDownload(t, key, response);
    var y := x.(blockTransfer := false);
    match closing
    case Whole => (t', y, Returned)
    case Mismatched => (t', Error(x, UNSUPPORTED_CONTENT_FORMAT), Returned)
    case NotJoined => (t', y, Thrown)
    case Joined(payload) => (t', y.(response := Some(response.(payload := Some(payload)))), Returned)
  }

  function ReceiveResponse(t: Tables, x: Exchange): (Tables, Exchange, Exit)
    requires x.response.Some?
  {
    var response := x.response.value;
    var key := KeyOf(response.source, response.token);
    if key in t.sent1 && response.block1.Some? then ReceiveBlock1Response(t, key, response.block1.value, x)
    else if response.block2.None? then (t, x.(blockTransfer := false), Returned)
    else if response.block2.value.more then ReceiveBlock(t, key, response.block2.value, x, response)
    else ReceiveLastBlock(t, key, x, response)
  }

  // ---------------------------------------------------------------- sending

  predicate Snapshot(t: Tables, key: Key) {
    key in t.received2 && t.received2[key].payload != Nothing
  }

  /** The response is sent in blocks. */
  predicate Blockwise(t: Tables, key: Key, response: Msg) {
    Snapshot(t, key) || (response.payload.Some? && (key in t.received2 || |response.payload.value| > MAX_PAYLOAD))
  }

  /** The item that the response is cut from: the running one, or a new one over the response's payload. */
  function Serving(t: Tables, key: Key, response: Msg): Item {
    if key in t.received2 then
      if t.received2[key].payload.Nothing? && response.payload.Some? then
        t.received2[key].(payload := Hold(response.payload), contentType := Some(response.contentType))
      else t.received2[key]
    else Item(0, 0, true, MAX_PAYLOAD, Hold(response.payload), Some(response.contentType))
  }

  /** The response with the next block of the served payload. */
  function Cut(request: Msg, response: Msg, item: Item): Msg {
    var payload := OctetsOf(item.payload);
    response.(
      size2 := if request.size2 == Some(0) || |payload| > MAX_PAYLOAD then Some(|payload|) else None,
      payload := Some(Slice(payload, item.byte, item.byte + item.size)),
      block2 := Some(Block(item.num, MoreAfter(item.num, item.size, |payload|), item.size)))
  }

  /** Without a response there is nothing to send, but a stored body would be cut into it. */
  function SendResponse(t: Tables, x: Exchange): (Tables, Exchange, Exit) {
    var key := KeyOf(x.request.source, x.request.token);
    if x.response.None? then (t, x, if Snapshot(t, key) then Thrown else Returned)
    else
      var response := x.response.value;
      if !Blockwise(t, key, response) then (t, x, Returned)
      else
        var item := Serving(t, key, response);
        (t.(received2 := t.received2[key := item.(byte := item.byte + item.size, num := item.num + 1)]),
         x.(response := Some(Cut(x.request, response, item))), Returned)
  }

  predicate LargePayload(m: Msg) {
    m.payload.Some? && |m.payload.value| > MAX_PAYLOAD
  }

  /** The length of a missing payload cannot be taken. */
  function SendRequest(t: Tables, request: Msg): (Tables, Msg, Exit) {
    var key := KeyOf(request.destination, request.token);
    if request.block1.Some? || LargePayload(request) then
      if request.payload.None? then (t, request, Thrown)
      else
        var payload := request.payload.value;
        var (num, size) := if request.block1.Some? then (request.block1.value.num, request.block1.value.size)
                           else (0, MAX_PAYLOAD);
        var more := MoreAfter(num, size, |payload|);
        (t.(sent1 := t.sent1[key := Item(size, num, more, size, Octets(payload), Some(request.contentType))]),
         request.(size1 := Some(|payload|), payload := Some(Slice(payload, 0, size)),
             block1 := Some(Block(num, more, size))),
         Returned)
    else if request.block2.Some? then
      var Block(num, more, size) := request.block2.value;
      (t.(sent2 := t.sent2[key := Item(size, num, more, size, EmptyText, None)]), request, Returned)
    else (t, request, Returned)
  }

  function Purge(t: Tables, key: Key): Tables {
    t.(received2 := t.received2 - {key})
  }
}
