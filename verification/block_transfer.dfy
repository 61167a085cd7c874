/** Both halves of the block layer together: whole uploads and whole downloads. */
module BlockTransfer {

  import opened Wrappers
  import opened Bytes
  import opened BlockOption
  import opened Messages
  import opened BlockTables
  import opened OptionWire

  // ------------------------------------------------------------------ upload

  /**
    A Block1 transfer: the client's and the server's tables and the request in flight. It ends
    with a delivered request, with an exception in one of the layers, or with an answer other than
    Continue for the caller.
   */
  datatype Upload =
    | Uploading(client: Tables, server: Tables, request: Msg)
    | Uploaded(client: Tables, server: Tables, request: Msg)
    | UploadBroken
    | UploadRefused

  /** The request as it arrives from the client's address. */
  function FromClient(request: Msg, client: Endpoint): Msg { request.(source := client) }

  /** The Continue answer of the server to a request, with a block size of its choice. */
  function Continuation(x: Exchange, size: nat): Option<Msg> {
    if x.response.None? || x.response.value.code != Some(CONTINUE) || x.response.value.block1.None? then None
    else Some(x.response.value.(block1 := Some(x.response.value.block1.value.(size := size))))
  }

  /** The client prepares the next request, whatever its block layer returns. */
  function TakeAnswer(u: Upload, server: Tables, answer: Msg): Upload
    requires u.Uploading?
  {
    var (tables, x, exit) := ReceiveResponse(u.client, Exchange(u.request, Some(answer), false, false));
    if exit == Thrown then UploadBroken
    else if !x.blockTransfer then UploadRefused
    else Uploading(tables, server, x.request)
  }

  /** One exchange: the server handles the request; if it answers Continue, the client goes on. */
  function UploadStep(u: Upload, client: Endpoint, size: nat): Upload {
    if !u.Uploading? then u
    else
      var (server, x, exit) := ReceiveRequest(u.server, Exchange(FromClient(u.request, client), None, false, false));
      if exit == Thrown then UploadBroken
      else if !x.blockTransfer then Uploaded(u.client, server, x.request)
      else if Continuation(x, size).None? then UploadRefused
      else TakeAnswer(u, server, Continuation(x, size).value)
  }

  /** The state after n more exchanges; sizes(i) is the size that the server puts in its i-th answer. */
  function UploadSteps(u: Upload, client: Endpoint, sizes: nat -> nat, i: nat, n: nat): Upload
    decreases n
  {
    if n == 0 then u else UploadSteps(UploadStep(u, client, sizes(i)), client, sizes, i + 1, n - 1)
  }

  /**
    The client has sent the payload up to done, and the request in flight carries the next
    item.byte - done octets, or whatever is left of the payload.
   */
  ghost predicate UploadInv(u: Upload, client: Endpoint, payload: bytes, done: nat, received1: map<Key, Item>) {
    && u.Uploading?
    && var key := KeyOf(u.request.destination, u.request.token);
    && var far := KeyOf(client, u.request.token);
    && key in u.client.sent1
    && var item := u.client.sent1[key];
    && item.payload == Octets(payload) && item.size > 0
    && done <= |payload| && item.byte == done + item.size
    && u.request.block2.None?
    && u.request.block1 == Some(Block(item.num, item.more, item.size))
    && u.request.payload == Some(Slice(payload, done, item.byte))
    && (item.more ==> item.byte <= |payload|)
    && (!item.more ==> |payload| <= item.byte)
    && u.server.received1 - {far} == received1
    && (if item.num == 0 then done == 0 && far !in u.server.received1
        else
          && far in u.server.received1
          && u.server.received1[far].num == item.num
          && u.server.received1[far].payload == Octets(payload[..done])
          && u.server.received1[far].contentType == Some(u.request.contentType))
  }

  lemma SliceNext(payload: bytes, done: nat, byte: nat)
    requires done <= |payload| && done < byte
    ensures byte <= |payload| ==> payload[..done] + Slice(payload, done, byte) == payload[..byte]
    ensures |payload| <= byte ==> payload[..done] + Slice(payload, done, byte) == payload
  {
  }

  /** The server's half of an exchange stores or delivers what has arrived so far. */
  lemma ServerTakesBlock(u: Upload, client: Endpoint, payload: bytes, done: nat, received1: map<Key, Item>)
    requires UploadInv(u, client, payload, done, received1)
    ensures var far := KeyOf(client, u.request.token);
            var item := u.client.sent1[KeyOf(u.request.destination, u.request.token)];
            var request := FromClient(u.request, client);
            var (server, x, exit) := ReceiveRequest(u.server, Exchange(request, None, false, false));
            exit == Returned &&
            if item.more then
              && x.blockTransfer
              && x.response == Some(Reply(request).(code := Some(CONTINUE), block1 := u.request.block1))
              && server == u.server.(received1 := u.server.received1[far :=
                   Item(item.size, item.num + 1, true, item.size, Octets(payload[..item.byte]),
                       Some(u.request.contentType))])
            else
              && !x.blockTransfer && x.request.payload == Some(payload)
              && x.request == request.(payload := Some(payload), block1 := None)
              && server == u.server.(received1 := received1)
  {
    hide Slice;
    var item := u.client.sent1[KeyOf(u.request.destination, u.request.token)];
    SliceNext(payload, done, item.byte);
    assert [] + Slice(payload, done, item.byte) == Slice(payload, done, item.byte);
  }

  /** The client's half of an exchange cuts the next block. */
  lemma ClientCutsBlock(t: Tables, request: Msg, size: nat, response: Msg)
    requires var key := KeyOf(request.destination, request.token);
             && key in t.sent1 && t.sent1[key].more && t.sent1[key].size > 0 && size > 0
             && t.sent1[key].payload.Octets?
             && response.block1 == Some(Block(t.sent1[key].num, true, size))
             && KeyOf(response.source, response.token) == key
    ensures var key := KeyOf(request.destination, request.token);
            var item := t.sent1[key];
            var step := if size < item.size then size else item.size;
            var byte := item.byte + step;
            var more := |item.payload.octets| > byte;
            var (t', x, exit) := ReceiveResponse(t, Exchange(request, Some(response), false, false));
            && exit == Returned && x.blockTransfer
            && t' == t.(sent1 := t.sent1[key := Item(byte, item.num + 1, more, step, item.payload, item.contentType)])
            && x.request == request.(mid := None, payload := Some(Slice(item.payload.octets, item.byte, byte)),
                                     block1 := Some(Block(item.num + 1, more, step)))
  {
    hide Slice;
  }

  /** Every exchange delivers the whole payload or moves on by at least one octet. */
  lemma UploadProgress(u: Upload, client: Endpoint, payload: bytes, done: nat, received1: map<Key, Item>, size: nat)
    requires UploadInv(u, client, payload, done, received1) && size > 0
    ensures var item := u.client.sent1[KeyOf(u.request.destination, u.request.token)];
            var u' := UploadStep(u, client, size);
            if item.more then
              && UploadInv(u', client, payload, item.byte, received1)
              && Header(u'.request) == Header(u.request) && u'.request.size1 == u.request.size1
              && u'.request.block1.value.num == item.num + 1
              && (u'.request.block1.value.more ==> item.byte + u'.request.block1.value.size < |payload|)
              && u'.request.block1.value.size == (if size < item.size then size else item.size)
              && u'.server.(received1 := received1) == u.server.(received1 := received1)
            else
              && u'.Uploaded? && u'.server == u.server.(received1 := received1)
              && u'.request == FromClient(u.request, client).(payload := Some(payload), block1 := None)
  {
    hide ReceiveRequest, ReceiveResponse, Slice;
    ServerTakesBlock(u, client, payload, done, received1);
    var key := KeyOf(u.request.destination, u.request.token);
    var item := u.client.sent1[key];
    if item.more {
      var response := Reply(FromClient(u.request, client)).(
        code := Some(CONTINUE), block1 := Some(Block(item.num, true, size)));
      ClientCutsBlock(u.client, u.request, size, response);
    }
  }

  /** What stays the same from block to block. */
  function Header(m: Msg): Msg { m.(mid := None, payload := None, block1 := None, size1 := None) }

  /** All other tables of the server are untouched, and the upload leaves nothing behind. */
  predicate Arrived(u: Upload, server: Tables, header: Msg, payload: bytes) {
    u.Uploaded? && u.server == server && Header(u.request) == header && u.request.payload == Some(payload)
  }

  lemma {:induction false} UploadCompletes(u: Upload, client: Endpoint, payload: bytes, done: nat,
                                           received1: map<Key, Item>, sizes: nat -> nat, i: nat)
    requires UploadInv(u, client, payload, done, received1) && forall k :: sizes(k) > 0
    ensures exists n: nat :: n <= |payload| - done + 1 && Arrived(UploadSteps(u, client, sizes, i, n),
              u.server.(received1 := received1), Header(FromClient(u.request, client)), payload)
    decreases |payload| - done
  {
    hide UploadInv, UploadStep, Header;
    UploadInvParts(u, client, payload, done, received1);
    var goal, header := u.server.(received1 := received1), Header(FromClient(u.request, client));
    UploadProgress(u, client, payload, done, received1, sizes(i));
    var item := u.client.sent1[KeyOf(u.request.destination, u.request.token)];
    var u' := UploadStep(u, client, sizes(i));
    if item.more {
      UploadInvParts(u', client, payload, item.byte, received1);
      UploadCompletes(u', client, payload, item.byte, received1, sizes, i + 1);
      SameHeader(u.request, u'.request, client);
      var n: nat :| n <= |payload| - item.byte + 1
          && Arrived(UploadSteps(u', client, sizes, i + 1, n), goal, header, payload);
      assert UploadSteps(u, client, sizes, i, n + 1) == UploadSteps(u', client, sizes, i + 1, n);
    } else {
      DeliveredHeader(FromClient(u.request, client), payload);
      assert UploadSteps(u, client, sizes, i, 1) == UploadSteps(u', client, sizes, i + 1, 0) == u';
    }
  }

  lemma UploadInvParts(u: Upload, client: Endpoint, payload: bytes, done: nat, received1: map<Key, Item>)
    requires UploadInv(u, client, payload, done, received1)
    ensures u.Uploading?
    ensures var key := KeyOf(u.request.destination, u.request.token);
            && key in u.client.sent1 && done <= |payload| && done < u.client.sent1[key].byte
            && (u.client.sent1[key].more ==> u.client.sent1[key].byte <= |payload|)
  {
  }

  lemma SameHeader(m: Msg, m': Msg, client: Endpoint)
    requires Header(m) == Header(m')
    ensures Header(FromClient(m, client)) == Header(FromClient(m', client))
  {
    assert Header(FromClient(m, client)) == Header(m).(source := client);
    assert Header(FromClient(m', client)) == Header(m').(source := client);
  }

  lemma DeliveredHeader(m: Msg, payload: bytes)
    ensures Header(m.(payload := Some(payload), block1 := None)) == Header(m)
  {
  }

  /** The request m has arrived with its payload, and the server's tables are the ones it started with. */
  predicate Delivered(u: Upload, server: Tables, m: Msg) {
    u.Uploaded? && u.server == server && Header(u.request) == Header(m) && u.request.payload == m.payload
  }

  /**
    Block1 end to end. Whatever its length, the payload of a request arrives whole, after finitely
    many exchanges, whatever positive block sizes the server answers with; the rest of the request
    arrives as it was, and the server's tables end as they were. A request that asks for blocks but
    has no payload raises before anything is sent.
   */
  lemma Block1EndToEnd(m: Msg, client: Endpoint, clientTables: Tables, server: Tables, sizes: nat -> nat)
    requires m.block2.None?
    requires m.block1.Some? ==> m.block1.value.num == 0 && m.block1.value.size > 0
    requires KeyOf(client, m.token) !in server.received1
    requires forall k :: sizes(k) > 0
    ensures var (t, first, exit) := SendRequest(clientTables, m);
            if m.block1.Some? && m.payload.None? then exit == Thrown && t == clientTables && first == m
            else
              && exit == Returned
              && (exists n: nat :: n <= |Text(m.payload)| + 1
                    && Delivered(UploadSteps(Uploading(t, server, first), client, sizes, 0, n), server,
                        FromClient(m, client)))
  {
    var payload := Text(m.payload);
    var (t, first, exit) := SendRequest(clientTables, m);
    var u := Uploading(t, server, first);
    if m.block1.Some? && m.payload.None? {
    } else if m.block1.Some? || |payload| > MAX_PAYLOAD {
      UploadStarts(m, client, clientTables, server);
      UploadCompletes(u, client, payload, 0, server.received1, sizes, 0);
      hide UploadSteps, SendRequest;
      SameHeader(m, first, client);
    } else {
      assert UploadSteps(u, client, sizes, 0, 1)
          == UploadSteps(UploadStep(u, client, sizes(0)), client, sizes, 1, 0)
          == Uploaded(t, server, FromClient(first, client));
    }
  }

  lemma UploadStarts(m: Msg, client: Endpoint, clientTables: Tables, server: Tables)
    requires m.block2.None? && m.payload.Some?
    requires m.block1.Some? ==> m.block1.value.num == 0 && m.block1.value.size > 0
    requires KeyOf(client, m.token) !in server.received1
    requires m.block1.Some? || LargePayload(m)
    ensures var (t, first, exit) := SendRequest(clientTables, m);
            && exit == Returned
            && UploadInv(Uploading(t, server, first), client, m.payload.value, 0, server.received1)
            && Header(first) == Header(m)
  {
    hide Slice;
    var (t, first, exit) := SendRequest(clientTables, m);
    assert server.received1 - {KeyOf(client, m.token)} == server.received1;
  }

  // ---------------------------------------------------------------- download

  /**
    A Block2 transfer: both tables, the response that the server's transaction keeps, and the
    request in flight. It ends with a response for the caller or with an exception in one of the
    layers. While Resending, the client has refused the response and sent the same request again,
    under the same id.
   */
  datatype Download =
    | Downloading(client: Tables, server: Tables, kept: Option<Msg>, request: Msg)
    | Resending(client: Tables, server: Tables, kept: Option<Msg>, request: Msg)
    | Downloaded(client: Tables, server: Tables, response: Msg)
    | DownloadBroken

  const CONTENT := 69

  /** What a resource gives to each of its responses besides the body. */
  datatype Form = Form(contentType: nat, others: seq<StoredOption>)

  function Rendered(request: Msg, body: bytes, form: Form): Msg {
    Reply(request).(code := Some(CONTENT), payload := Some(body), contentType := form.contentType,
        others := form.others)
  }

  /**
    The server's half: a transaction that was purged in between is made anew, together with its
    rendered response, while a kept one has its response cut again.
   */
  function Serve(server: Tables, kept: Option<Msg>, request: Msg, body: bytes, form: Form,
                 purged: bool): (Tables, Msg) {
    var tables := if purged then Purge(server, KeyOf(request.source, request.token)) else server;
    var (t, x, _) := ReceiveRequest(tables, Exchange(request, if purged then None else kept, false, false));
    var response := if x.response.Some? then x.response.value else Rendered(x.request, body, form);
    var (t', x', _) := SendResponse(t, x.(response := Some(response)));
    (t', x'.response.value)
  }

  /** The client takes the response that answers the request in flight; the server keeps its own copy. */
  function TakeResponse(d: Download, server: Tables, kept: Msg, response: Msg): Download
    requires d.Downloading? || d.Resending?
  {
    var (tables, x, exit) := ReceiveResponse(d.client, Exchange(d.request, Some(response), false, false));
    if exit == Thrown then DownloadBroken
    else if x.response.value.typ == Some(RST) then Resending(tables, server, Some(kept), x.request)
    else if x.blockTransfer then Downloading(tables, server, Some(kept), x.request)
    else Downloaded(tables, server, x.response.value)
  }

  /** The server's answer; a request that is sent again is a duplicate until its transaction is purged. */
  function Respond(d: Download, request: Msg, body: bytes, form: Form, purged: bool): (Tables, Msg)
    requires d.Downloading? || d.Resending?
  {
    if d.Resending? && !purged && d.kept.Some? then (d.server, d.kept.value)
    else Serve(d.server, d.kept, request, body, form, purged)
  }

  function DownloadStep(d: Download, client: Endpoint, body: bytes, form: Form, purged: bool): Download {
    if !d.Downloading? && !d.Resending? then d
    else
      var (server, r) := Respond(d, FromClient(d.request, client), body, form, purged);
      TakeResponse(d, server, r, r)
  }

  function DownloadSteps(d: Download, client: Endpoint, body: bytes, form: Form, purged: nat -> bool, i: nat,
                         n: nat): Download
    decreases n
  {
    if n == 0 then d
    else DownloadSteps(DownloadStep(d, client, body, form, purged(i)), client, body, form, purged, i + 1, n - 1)
  }

  /** A response of this transfer, before and after it is cut. */
  predicate FromBody(r: Msg, request: Msg, form: Form) {
    && r.source == request.destination && r.token == request.token
    && r.contentType == form.contentType && r.others == form.others && r.block1.None? && r.typ != Some(RST)
        && r.payload.Some?
    && r.code == Some(CONTENT) && r.size1.None?
  }

  /** Before block j is served: a running item stands at offset j * size, over the snapshot of the body. */
  predicate ReadyToServe(server: Tables, kept: Option<Msg>, request: Msg, body: bytes, form: Form, offset: nat) {
    var far := KeyOf(request.source, request.token);
    && (far in server.received2 <==> kept.Some?)
    && (kept.Some? ==>
          && server.received2[far].byte == offset && server.received2[far].payload == Octets(body)
          && FromBody(kept.value, request, form))
  }

  /** Served block j of the given size is that stretch of the body, with the right number and M bit. */
  lemma ServerSendsBlock(server: Tables, kept: Option<Msg>, request: Msg, body: bytes, form: Form, purged: bool,
                         j: nat, size: nat)
    requires request.block2.Some? && request.block2.value.num == j && request.block2.value.size == size
    requires ReadyToServe(server, kept, request, body, form, j * size)
    ensures var far := KeyOf(request.source, request.token);
            var (t, r) := Serve(server, kept, request, body, form, purged);
            && FromBody(r, request, form)
            && r.block2 == Some(Block(j, MoreAfter(j, size, |body|), size))
            && r.payload == Some(Slice(body, j * size, j * size + size)) && r.size2 in {None, Some(|body|)}
            && far in t.received2 && t.received2[far].byte == j * size + size
                && t.received2[far].payload == Octets(body)
  {
    hide Slice, MoreAfter;
    var offset := j * size;
  }

  /** A long body is served in blocks of MAX_PAYLOAD without being asked. */
  lemma ServerStartsBlocks(server: Tables, request: Msg, body: bytes, form: Form, purged: bool)
    requires request.block2.None? && request.block1.None?
    requires KeyOf(request.source, request.token) !in server.received2
    ensures var far := KeyOf(request.source, request.token);
            var (t, r) := Serve(server, None, request, body, form, purged);
            && FromBody(r, request, form) && r.size2 in {None, Some(|body|)}
            && (if |body| > MAX_PAYLOAD then
                 && r.block2 == Some(Block(0, MoreAfter(0, MAX_PAYLOAD, |body|), MAX_PAYLOAD))
                 && r.payload == Some(Slice(body, 0, MAX_PAYLOAD))
                 && far in t.received2 && t.received2[far].byte == MAX_PAYLOAD
                     && t.received2[far].payload == Octets(body)
               else r.block2.None? && r.payload == Some(body))
  {
    hide Slice, MoreAfter;
    assert Purge(server, KeyOf(request.source, request.token)).received2 == server.received2;
  }

  /** The client's table holds what it has received so far and expects number j. */
  predicate Expecting(t: Tables, key: Key, j: nat, size: nat, soFar: Held, contentType: Option<nat>) {
    && key in t.sent2 && t.sent2[key].num == j && t.sent2[key].size == size
    && t.sent2[key].payload == soFar && t.sent2[key].contentType == contentType
  }

  /** A client that knows no content type yet refuses a last block; one that holds no octets cannot append any. */
  lemma ClientTakesBlock(t: Tables, request: Msg, r: Msg, form: Form, soFar: Held, known: Option<nat>)
    requires FromBody(r, request, form) && r.block2.Some?
    requires var key := KeyOf(request.destination, request.token);
             Expecting(t, key, r.block2.value.num, r.block2.value.size, soFar, known)
    requires known == None || known == Some(form.contentType)
    ensures var key := KeyOf(request.destination, request.token);
            var b := r.block2.value;
            var (t', x, exit) := ReceiveResponse(t, Exchange(request, Some(r), false, false));
            if !b.more && known == None then
              exit == Returned && t' == t && x.request == request
              && x.response.Some? && x.response.value.typ == Some(RST)
            else if !soFar.Octets? then exit == Thrown
            else if b.more then
              && exit == Returned && x.blockTransfer && x.response == Some(r)
              && x.request == request.(mid := None, block2 := Some(Block(b.num + 1, false, b.size)))
              && Expecting(t', key, b.num + 1, b.size, Octets(soFar.octets + r.payload.value), Some(form.contentType))
            else
              && exit == Returned && !x.blockTransfer
              && x.response == Some(r.(payload := Some(soFar.octets + r.payload.value)))
              && key !in t'.sent2
  {
  }

  lemma ClientTakesFirstBlock(t: Tables, request: Msg, r: Msg, form: Form)
    requires FromBody(r, request, form)
    requires KeyOf(request.destination, request.token) !in t.sent2
    ensures var key := KeyOf(request.destination, request.token);
            var (t', x, exit) := ReceiveResponse(t, Exchange(request, Some(r), false, false));
            exit == Returned &&
            if r.block2.Some? && r.block2.value.more then
              var b := r.block2.value;
              && x.blockTransfer && x.response == Some(r)
              && x.request == request.(mid := None, block2 := Some(Block(b.num + 1, false, b.size)))
              && Expecting(t', key, b.num + 1, b.size, Octets(r.payload.value), Some(form.contentType))
            else !x.blockTransfer && x.response == Some(r)
  {
  }

  /** Between exchanges: block j of the body is asked for, and the client holds body[from..j*size]. */
  ghost predicate DownloadInv(d: Download, client: Endpoint, body: bytes, form: Form, from: nat, j: nat, size: nat) {
    && d.Downloading? && size > 0
    && from <= j * size <= |body|
    && d.request.block1.None? && d.request.block2 == Some(Block(j, false, size))
    && ReadyToServe(d.server, d.kept, FromClient(d.request, client), body, form, j * size)
    && Expecting(d.client, KeyOf(d.request.destination, d.request.token), j, size, Octets(body[from..j * size]),
        Some(form.contentType))
  }

  /** Every exchange ends the transfer or moves on to the next block. */
  lemma DownloadProgress(d: Download, client: Endpoint, body: bytes, form: Form, from: nat, j: nat, size: nat,
                         purged: bool)
    requires DownloadInv(d, client, body, form, from, j, size)
    ensures var d' := DownloadStep(d, client, body, form, purged);
            if j * size + size <= |body| then
              && DownloadInv(d', client, body, form, from, j + 1, size)
              && d'.request == d.request.(mid := None, block2 := Some(Block(j + 1, false, size)))
            else d'.Downloaded? && d'.response.payload == Some(body[from..])
  {
    hide ReceiveResponse, Serve;
    var request := FromClient(d.request, client);
    ServerSendsBlock(d.server, d.kept, request, body, form, purged, j, size);
    var (server, r) := Serve(d.server, d.kept, request, body, form, purged);
    ClientTakesBlock(d.client, d.request, r, form, Octets(body[from..j * size]), Some(form.contentType));
    assert (j + 1) * size == j * size + size;
    if j * size + size <= |body| {
      assert Slice(body, j * size, j * size + size) == body[j * size..j * size + size];
      assert body[from..j * size] + body[j * size..j * size + size] == body[from..(j + 1) * size];
    } else {
      assert body[from..j * size] + Slice(body, j * size, j * size + size) == body[from..];
    }
  }

  lemma {:induction false} DownloadCompletes(d: Download, client: Endpoint, body: bytes, form: Form,
                                             from: nat, j: nat, size: nat, purged: nat -> bool, i: nat)
    requires DownloadInv(d, client, body, form, from, j, size)
    ensures j <= |body| / size
    ensures var d' := DownloadSteps(d, client, body, form, purged, i, |body| / size + 1 - j);
            d'.Downloaded? && d'.response.payload == Some(body[from..])
    decreases |body| - j * size
  {
    hide DownloadStep, DownloadInv;
    DownloadProgress(d, client, body, form, from, j, size, purged(i));
    var d' := DownloadStep(d, client, body, form, purged(i));
    assert size > 0 && j * size <= |body| by { DownloadInvParts(d, client, body, form, from, j, size); }
    if j * size + size <= |body| {
      assert (j + 1) * size == j * size + size;
      DownloadCompletes(d', client, body, form, from, j + 1, size, purged, i + 1);
      assert DownloadSteps(d, client, body, form, purged, i, |body| / size + 1 - j)
          == DownloadSteps(d', client, body, form, purged, i + 1, |body| / size + 1 - (j + 1));
    } else {
      LastBlockNumber(|body|, size, j);
      assert DownloadSteps(d, client, body, form, purged, i, 1)
          == DownloadSteps(d', client, body, form, purged, i + 1, 0);
    }
  }

  lemma DownloadInvParts(d: Download, client: Endpoint, body: bytes, form: Form, from: nat, j: nat, size: nat)
    requires DownloadInv(d, client, body, form, from, j, size)
    ensures size > 0 && j * size <= |body|
  {
  }

  lemma LastBlockNumber(length: nat, size: nat, j: nat)
    requires size > 0 && j * size <= length < j * size + size
    ensures length / size == j
  {
    var q := length / size;
    if q < j {
      Gap(q, j, size);
    } else if q > j {
      Gap(j, q, size);
    }
  }

  lemma {:induction false} Gap(a: nat, b: nat, size: nat)
    requires a < b
    ensures a * size + size <= b * size
  {
    assert b * size == (b - 1) * size + size;
    if a + 1 < b {
      Gap(a, b - 1, size);
    }
  }

  /** The first exchange of a download that the client did not negotiate. */
  lemma DownloadStarts(m: Msg, client: Endpoint, t: Tables, server: Tables, body: bytes, form: Form, purged: bool)
    requires m.block1.None? && m.block2.None?
    requires KeyOf(m.destination, m.token) !in t.sent2 && KeyOf(client, m.token) !in server.received2
    ensures var d := DownloadStep(Downloading(t, server, None, m), client, body, form, purged);
            if |body| > MAX_PAYLOAD then
              && DownloadInv(d, client, body, form, 0, 1, MAX_PAYLOAD)
              && d.request == m.(mid := None, block2 := Some(Block(1, false, MAX_PAYLOAD)))
            else d.Downloaded? && d.response.payload == Some(body)
  {
    hide ReceiveResponse, Serve, Slice;
    var request := FromClient(m, client);
    ServerStartsBlocks(server, request, body, form, purged);
    var (t', r) := Serve(server, None, request, body, form, purged);
    ClientTakesFirstBlock(t, m, r, form);
    SliceFromStart(body, MAX_PAYLOAD);
  }

  lemma SliceFromStart(s: bytes, n: nat)
    ensures n <= |s| ==> Slice(s, 0, n) == s[0..n]
  {
  }

  /**
    Block2 end to end. Any body above one block is received whole after floor(length / 1024) + 1
    exchanges, even if the server's transaction is purged, and the resource rendered again, before
    any of them; a shorter body needs one exchange.
   */
  lemma Block2EndToEnd(m: Msg, client: Endpoint, t: Tables, server: Tables, body: bytes, form: Form,
                       purged: nat -> bool)
    requires m.block1.None? && m.block2.None?
    requires KeyOf(m.destination, m.token) !in t.sent2 && KeyOf(client, m.token) !in server.received2
    ensures var n := if |body| > MAX_PAYLOAD then |body| / MAX_PAYLOAD + 1 else 1;
            var d := DownloadSteps(Downloading(t, server, None, m), client, body, form, purged, 0, n);
            d.Downloaded? && d.response.payload == Some(body)
  {
    hide DownloadStep, DownloadInv;
    var d := Downloading(t, server, None, m);
    DownloadStarts(m, client, t, server, body, form, purged(0));
    var d' := DownloadStep(d, client, body, form, purged(0));
    if |body| > MAX_PAYLOAD {
      DownloadCompletes(d', client, body, form, 0, 1, MAX_PAYLOAD, purged, 1);
      assert body[0..] == body;
      assert DownloadSteps(d, client, body, form, purged, 0, |body| / MAX_PAYLOAD + 1)
          == DownloadSteps(d', client, body, form, purged, 1, |body| / MAX_PAYLOAD + 1 - 1);
    } else {
      assert DownloadSteps(d, client, body, form, purged, 0, 1)
          == DownloadSteps(d', client, body, form, purged, 1, 0);
    }
  }

  // ------------------------------------------------------ early negotiation

  /** After a purge the server answers any block request from a fresh rendering. */
  lemma ServerStartsAnew(server: Tables, kept: Option<Msg>, request: Msg, body: bytes, form: Form, j: nat, size: nat)
    requires request.block2.Some? && request.block2.value.num == j && request.block2.value.size == size
    ensures var (t, r) := Serve(server, kept, request, body, form, true);
            && FromBody(r, request, form)
            && r.block2 == Some(Block(j, MoreAfter(j, size, |body|), size))
            && r.payload == Some(Slice(body, j * size, j * size + size))
  {
    hide Slice, MoreAfter;
    var offset := j * size;
  }

  lemma NegotiationIsExpected(t: Tables, m: Msg)
    requires m.block1.None? && m.block2.Some? && !LargePayload(m)
    ensures var (t', request, exit) := SendRequest(t, m);
            var Block(j, _, size) := m.block2.value;
            exit == Returned && request == m && Expecting(t', KeyOf(m.destination, m.token), j, size, EmptyText, None)
  {
  }

  /** The client has refused the only block that it asked for, and asks again. */
  predicate Refused(d: Download, t: Tables, m: Msg, form: Form) {
    && d.Resending? && d.client == t && d.request == m && m.block2.Some?
    && d.kept.Some? && FromBody(d.kept.value, m, form)
    && d.kept.value.block2 == Some(Block(m.block2.value.num, false, m.block2.value.size))
  }

  lemma RefusedAgain(d: Download, client: Endpoint, t: Tables, m: Msg, body: bytes, form: Form, purged: bool)
    requires Refused(d, t, m, form) && |body| < m.block2.value.num * m.block2.value.size + m.block2.value.size
    requires Expecting(t, KeyOf(m.destination, m.token), m.block2.value.num, m.block2.value.size, EmptyText, None)
    ensures Refused(DownloadStep(d, client, body, form, purged), t, m, form)
  {
    hide Serve, ReceiveResponse;
    var Block(j, _, size) := m.block2.value;
    if purged {
      ServerStartsAnew(d.server, d.kept, FromClient(m, client), body, form, j, size);
      var r := Serve(d.server, d.kept, FromClient(m, client), body, form, true).1;
      ClientTakesBlock(t, m, r, form, EmptyText, None);
    } else {
      ClientTakesBlock(t, m, d.kept.value, form, EmptyText, None);
    }
  }

  /** The first exchange: the text that the client starts with cannot be joined, and a last block is refused. */
  lemma NegotiationStarts(m: Msg, client: Endpoint, t: Tables, server: Tables, body: bytes, form: Form,
                          purged: bool, j: nat, more: bool, size: nat)
    requires m.block1.None? && m.block2 == Some(Block(j, more, size)) && size > 0
    requires Expecting(t, KeyOf(m.destination, m.token), j, size, EmptyText, None)
    requires KeyOf(client, m.token) !in server.received2
    ensures var d := DownloadStep(Downloading(t, server, None, m), client, body, form, purged);
            if j * size + size <= |body| then d.DownloadBroken? else Refused(d, t, m, form)
  {
    hide ReceiveResponse, Serve;
    ServerSendsBlock(server, None, FromClient(m, client), body, form, purged, j, size);
    var (u, r) := Serve(server, None, FromClient(m, client), body, form, purged);
    ClientTakesBlock(t, m, r, form, EmptyText, None);
  }

  lemma {:induction false} BrokenStays(client: Endpoint, body: bytes, form: Form, purged: nat -> bool, i: nat, n: nat)
    ensures DownloadSteps(DownloadBroken, client, body, form, purged, i, n) == DownloadBroken
    decreases n
  {
    if n > 0 {
      BrokenStays(client, body, form, purged, i + 1, n - 1);
    }
  }

  lemma {:induction false} RefusedForever(d: Download, client: Endpoint, t: Tables, m: Msg, body: bytes, form: Form,
                                          purged: nat -> bool, i: nat, n: nat)
    requires Refused(d, t, m, form) && |body| < m.block2.value.num * m.block2.value.size + m.block2.value.size
    requires Expecting(t, KeyOf(m.destination, m.token), m.block2.value.num, m.block2.value.size, EmptyText, None)
    ensures Refused(DownloadSteps(d, client, body, form, purged, i, n), t, m, form)
    decreases n
  {
    hide DownloadStep, Refused, Expecting;
    assert m.block2.Some? by { RefusedAsks(d, t, m, form); }
    if n > 0 {
      RefusedAgain(d, client, t, m, body, form, purged(i));
      RefusedForever(DownloadStep(d, client, body, form, purged(i)), client, t, m, body, form, purged, i + 1, n - 1);
    }
  }

  lemma RefusedAsks(d: Download, t: Tables, m: Msg, form: Form)
    requires Refused(d, t, m, form)
    ensures m.block2.Some?
  {
  }

  /**
    Early negotiation never delivers. If a whole block is left at the requested number, joining it
    with the text that send_request stores raises in the first exchange; otherwise the client
    refuses the only answer, having stored no content type to compare with, and the same exchange
    is repeated for ever, purges or not.
   */
  lemma NegotiationNeverDelivers(m: Msg, client: Endpoint, t: Tables, server: Tables, body: bytes, form: Form,
                                 purged: nat -> bool, n: nat)
    requires m.block1.None? && m.block2.Some? && m.block2.value.size > 0
    requires !LargePayload(m) && KeyOf(client, m.token) !in server.received2
    ensures var (t', request, exit) := SendRequest(t, m);
            var Block(j, _, size) := m.block2.value;
            var d := DownloadSteps(Downloading(t', server, None, request), client, body, form, purged, 0, n);
            && exit == Returned
            && (n > 0 ==> if j * size + size <= |body| then d.DownloadBroken? else Refused(d, t', m, form))
  {
    hide DownloadStep, SendRequest, Refused, Expecting;
    var (t', request, _) := SendRequest(t, m);
    var Block(j, more, size) := m.block2.value;
    NegotiationIsExpected(t, m);
    NegotiationStarts(m, client, t', server, body, form, purged(0), j, more, size);
    var d' := DownloadStep(Downloading(t', server, None, request), client, body, form, purged(0));
    if n > 0 {
      if j * size + size <= |body| {
        BrokenStays(client, body, form, purged, 1, n - 1);
      } else {
        RefusedForever(d', client, t', m, body, form, purged, 1, n - 1);
      }
    }
  }

  /** One input of each kind: block 0 of 64 octets, of a body of 100 and of a body of 10 octets. */
  lemma NegotiationFails(m: Msg, client: Endpoint, t: Tables, server: Tables, body: bytes)
    requires m.block1.None? && m.block2 == Some(Block(0, false, 64)) && m.payload == None
    requires KeyOf(client, m.token) !in server.received2
    requires |body| == 100 || |body| == 10
    ensures var d := DownloadStep(Downloading(SendRequest(t, m).0, server, None, m), client, body, Form(0, []), false);
            if |body| == 100 then d.DownloadBroken? else d.Resending? && d.request == m
  {
    hide DownloadStep, SendRequest, Expecting;
    NegotiationIsExpected(t, m);
    NegotiationStarts(m, client, SendRequest(t, m).0, server, body, Form(0, []), false, 0, false, 64);
  }

  /** The client's tables if send_request started with an empty octet string. */
  function Repaired(t: Tables, key: Key): Tables
    requires key in t.sent2
  {
    t.(sent2 := t.sent2[key := t.sent2[key].(payload := Octets([]))])
  }

  /**
    What a repair of the start value alone would give, not what the code does: the body from the
    requested block on, exactly when at least one whole block is left there.
   */
  lemma RepairedNegotiation(m: Msg, client: Endpoint, t: Tables, server: Tables, body: bytes, form: Form,
                            purged: nat -> bool)
    requires m.block1.None? && m.block2.Some? && m.block2.value.size > 0
    requires !LargePayload(m) && KeyOf(client, m.token) !in server.received2
    ensures var key := KeyOf(m.destination, m.token);
            var t' := SendRequest(t, m).0;
            var Block(j, _, size) := m.block2.value;
            && key in t'.sent2
            && var d := Downloading(Repaired(t', key), server, None, m);
               if j * size + size <= |body| then
                 && j <= |body| / size
                 && var d' := DownloadSteps(d, client, body, form, purged, 0, |body| / size + 1 - j);
                    d'.Downloaded? && d'.response.payload == Some(body[j * size..])
               else DownloadSteps(d, client, body, form, purged, 0, 1).Resending?
  {
    hide DownloadStep, DownloadInv, SendRequest;
    NegotiationIsExpected(t, m);
    var Block(j, more, size) := m.block2.value;
    var d := Downloading(Repaired(SendRequest(t, m).0, KeyOf(m.destination, m.token)), server, None, m);
    RepairedStart(m, client, d.client, server, body, form, purged(0), j, more, size);
    var d' := DownloadStep(d, client, body, form, purged(0));
    if j * size + size <= |body| {
      DownloadCompletes(d', client, body, form, j * size, j + 1, size, purged, 1);
      assert DownloadSteps(d, client, body, form, purged, 0, |body| / size + 1 - j)
          == DownloadSteps(d', client, body, form, purged, 1, |body| / size + 1 - (j + 1));
    } else {
      assert DownloadSteps(d, client, body, form, purged, 0, 1)
          == DownloadSteps(d', client, body, form, purged, 1, 0);
    }
  }

  lemma RepairedStart(m: Msg, client: Endpoint, t: Tables, server: Tables, body: bytes, form: Form,
                      purged: bool, j: nat, more: bool, size: nat)
    requires m.block1.None? && m.block2 == Some(Block(j, more, size)) && size > 0
    requires Expecting(t, KeyOf(m.destination, m.token), j, size, Octets([]), None)
    requires KeyOf(client, m.token) !in server.received2
    ensures var d := DownloadStep(Downloading(t, server, None, m), client, body, form, purged);
            if j * size + size <= |body| then DownloadInv(d, client, body, form, j * size, j + 1, size)
            else d.Resending?
  {
    hide ReceiveResponse, Serve;
    ServerSendsBlock(server, None, FromClient(m, client), body, form, purged, j, size);
    var (u, r) := Serve(server, None, FromClient(m, client), body, form, purged);
    ClientTakesBlock(t, m, r, form, Octets([]), None);
    assert (j + 1) * size == j * size + size;
    if j * size + size <= |body| {
      assert Slice(body, j * size, j * size + size) == body[j * size..j * size + size];
      assert [] + body[j * size..j * size + size] == body[j * size..(j + 1) * size];
    }
  }

  /** The last block is empty exactly when the size divides the body: there an absent payload must read as empty. */
  lemma LastBlockEmpty(body: bytes, size: nat)
    requires size > 0
    ensures var last := |body| / size;
            && !MoreAfter(last, size, |body|)
            && (Slice(body, last * size, last * size + size) == [] <==> |body| % size == 0)
  {
    var last := |body| / size;
    assert |body| == last * size + |body| % size;
  }
}
